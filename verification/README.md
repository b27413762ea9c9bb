# Verified models of the relay gateway's protocols

These Dafny files model the parts of the Claude relay gateway that keep state across calls or across
requests, and prove what that state obeys:

- **WebSocket framing** (`Ws*.dfy`): two incremental parsers, the frame encoders, and the streaming
  rewriter that reassembles fragmented client texts, rewrites them, and on overflow falls back to raw
  forwarding or refuses. `WsLayout` writes the frame of RFC 6455 down field by field, and `WsStream` is the
  reference decoder: the RFC read off a whole byte string. Everything else is measured against these two,
  for every byte string and every way of cutting it into chunks.
- **Admission to one API key** (`Leases`, `Admission*.dfy`, `Polling`, `Renewal`): HTTP requests with
  their waiting queue and WebSocket turns share one lease set and one waiting counter. They are a state machine whose steps are single store scripts and stretches of request code between
  two awaits; steps interleave freely, calls fail, answers get lost, and script calls carry stale clock
  readings.
- **Billing and account state** (`Billing`, `AccountCost`, `Catalog`): a charge that is applied once
  although its requests are retried, the daily cost readers, and the optimistic catalog update.
- **Smaller cores**: the audit-file self-heal (`Audit*.dfy`), the log viewer's bounded window
  (`LogWindow`), the weekly reset (`ResetPeriod`) and the HTTP/relay counters (`RequestStats`,
  `RequestTally`).

Code that works by updating fields appears twice: as a class or method with the same branches, loops and
fields (`WsSnifferObject`, `WsRewriterObject`, `WsEndpointObject`, `WsEncoders`, `LeaseStore`,
`RenewalTimer`, `CostStore`, `AccountStore`, `LogView`, `ObservedRequest`, `LogDirectory`, the reader and
retry methods), proved to compute a specification function of the old state; and as that function, about
which the theorems are stated.

`dafny verify dfyconfig.toml` checks the project.

## Assumptions

- A Redis script is one atomic step, as written in `src/infra/redis_lua.js`. A call is answered, fails
  without effect, or takes effect while its answer is lost. Identifiers made at random are fresh.
- Texts are their bytes. Mask keys, jitter, clocks, socket behaviour, callbacks' results and prices are
  parameters, arbitrary unless a contract says otherwise. Callbacks and sockets may depend on everything
  that happened before: they are functions of the number of the call as well as of its argument. A
  callback takes its turn before the next frame is read; what a handler does later is a step of its own.
  Costs and intervals are real numbers. The hash of an audit entry is injective.

## Where a promise does not hold

- **Clean-up of expired leases.** The per-key clean-up purges, counts, and then deletes the key in
  separate calls. A lease inserted between the count and the delete is lost. Leases in the store stay
  within the limit unconditionally; leases owned by requests do so through one more delete, in everything
  that may follow, if and only if nobody owns a lease when it comes
  (`AdmissionCleanUp.DeleteKeepsLimitIff`): at every limit a late delete can be followed by a breach
  (`AdmissionCleanUp.LateDeleteBreaksLimit`). The atomic sweep is not affected.
- **Client control frames.** Their encoder keeps seven bits of the length, so a frame comes back exactly
  when its payload has at most 125 bytes (`WsFrame.ControlRoundTrip`).
- **Audit self-heal.** A second run finds nothing to do exactly when every kept entry names a file of the
  directory and some file of it is left (`AuditConvergence.SettlesIff`). Entries that end in `.` or `..`
  and entries that name an archive of an evicted log break this, the latter in every directory
  (`AuditConvergence.StaleRecordUnsettled`); ordinary log names never do.
- **Batch cost.** An account id with a colon is cut at that colon and gets nothing, while the per-account
  reader charges it (`AccountCost.ColonIdLost`).
- **Mixed cost records.** Unpriced requests that have cache-lifetime tokens only, and no tokens of the
  four core kinds, are not priced (`AccountCost.ResolvedCost` gives the exact case).
- **Waiting counter.** When the last attempt to leave it fails, the counter keeps that request; the
  pairing counts such requests explicitly.
- **Counters after a reset.** A request judged before a reset takes its old outcome out of the new
  totals, so a counter can become negative (`RequestTally.ResetGoesNegative`); the sums still add up. No
  counter is negative exactly when no count over the requests has fallen since the reset, and so whenever
  no request judged before it accepts a verdict after it (`RequestTally.NonNegativeAcrossReset`).
- **Deferred texts.** With the admission hook a text that is refused, or whose rewrite throws, is not sent
  as it is even in default mode: the proxy drops it or ends the connection (`WsValidation.EveryTextDecided`).
- **Backoff comment.** The source's comment says negative jitter may shorten the poll interval. With
  its factor of 1.5 and jitter of a fifth it never does (`Polling.IntervalGrows`).

## Model

| member | source | states |
|---|---|---|
| WsFrame.XorIsBitwise | src/common/gateway_ws_frame_sniffer.js:322-334 | each of the eight bits of the exclusive or is set exactly where one of the two bytes has it and the other has not |
| WsFrame.MaskInvolutive | src/common/gateway_ws_frame_sniffer.js:322-334 | bit by bit, byte `i` is combined with byte `i % 4` of the key; masking twice with one key gives the data back |
| WsFrame.FrameOfPrefix | src/common/gateway_ws_frame_sniffer.js:79-129 | a parsed frame depends on its own bytes only: any buffer starting with them yields the same frame |
| WsFrame.ParseExtends | src/common/gateway_ws_frame_sniffer.js:79-129 | bytes after a complete frame, or after an oversized head, never change how it is read |
| WsFrame.ParseLimits | src/common/gateway_ws_endpoint.js:245-290 | parsers with different size limits agree on every frame both accept and on incomplete input |
| WsFrame.FrameRoundTrip | src/common/gateway_ws_endpoint.js:15-36 | parsing an unmasked encoded frame followed by any suffix consumes just that frame and returns payload, opcode and FIN, across all three length forms |
| WsFrame.MaskedTextRoundTrip | src/common/gateway_ws_endpoint.js:41-70 | the same for a masked client text, for every mask key |
| WsFrame.ControlRoundTrip | src/common/gateway_ws_endpoint.js:72-86 | a masked control frame comes back if and only if its payload has at most 125 bytes |
| WsLayout.LayoutParses | src/common/gateway_ws_frame_sniffer.js:79-129 | every frame laid out by RFC 6455, in each of the three forms of the length, with any bits, opcode, mask and payload, and whatever follows, is read as just those fields; only an eight-byte length can be over the limit |
| WsLayout.ParsedIsLaidOut | src/common/gateway_ws_frame_sniffer.js:79-129 | conversely, the bytes of every frame that is read are the layout of the fields found |
| WsLayout.ParseDecides | src/common/gateway_ws_frame_sniffer.js:79-129 | a frame is found exactly when the buffer starts with a layout within the limit, an oversized one exactly when eight bytes announce more; everything else waits |
| WsLayout.EncodersFollowLayout | src/common/gateway_ws_endpoint.js:15-86 | the three encoders write the layout of the frame asked for, with the shortest form of the length and network byte order |
| WsEncoders.ApplyMask | src/common/gateway_ws_frame_sniffer.js:322-334 | the byte loop gives, bit for bit, the exclusive or of each byte with its byte of the key |
| WsEncoders.ReadFrame | src/common/gateway_ws_frame_sniffer.js:79-129 | the length ladder and the cut compute the frame parser |
| WsEncoders.EncodeWsFrame | src/common/gateway_ws_endpoint.js:15-36 | the buffer-filling encoder writes exactly the frame whose round trip is proved |
| WsEncoders.EncodeWsClientText | src/common/gateway_ws_endpoint.js:41-70 | the same for masked texts; also the rewriter's encoder |
| WsEncoders.EncodeWsClientControl | src/common/gateway_ws_endpoint.js:72-84 | the same for masked control frames, with the seven-bit length |
| WsStream.ReceiveTwice | src/common/gateway_ws_frame_sniffer.js:67-205 | the reference decoder is indifferent to where a stream is cut |
| WsMessages.MessageDecodes | src/common/gateway_ws_frame_sniffer.js:131-204 | a first frame, any continuations and control frames between them, and a final continuation decode to the control frames in order and one message with the first frame's opcode and all payloads in a row |
| WsMessages.CloseDropsMessage | src/common/gateway_ws_frame_sniffer.js:131-142 | a close frame ends a message under way, which is never completed |
| WsSniffer.SnifferRefinesDecoder | src/common/gateway_ws_frame_sniffer.js:67-205 | within the buffer cap the sniffer overflows exactly when the stream breaks a size limit, and otherwise its callbacks, its unfinished message and its unparsed bytes are the decoder's on the whole stream |
| WsSniffer.ChunkingIndependence | src/common/gateway_ws_frame_sniffer.js:67-205 | two chunkings of one stream give the same callbacks and the same state, or both overflow |
| WsReports.SnifferTells | src/common/gateway_ws_frame_sniffer.js:131-204 | within the limits the callbacks are told exactly the plain texts, pings and close frames of the stream, in order, and right behind each text on which the text callback throws, that failure |
| WsReports.EverySession | src/common/gateway_ws_frame_sniffer.js:47-205 | every session, limits broken or not: what has been told and what is still held; a broken limit is told once, all that was received and not told is forgotten, and the next chunk starts afresh |
| WsReports.TooMuchMeans | src/common/gateway_ws_frame_sniffer.js:165-174 | a message is too much exactly over 16 MiB or over 4096 frames |
| WsSnifferObject.FrameSniffer.Push | src/common/gateway_ws_frame_sniffer.js:67-205 | the object's parse loop terminates and moves buffer, fragments and callback log as specified |
| WsSnifferObject.FrameSniffer.Handle | src/common/gateway_ws_frame_sniffer.js:131-204 | one frame, with fragment accounting, overflow and a throwing text handler |
| WsRewriting.RewritingPreservesMeaning | src/common/gateway_ws_frame_sniffer.js:225-534 | for every well-formed client stream, chunking, flush, mask key and callbacks that depend on the history, immediate or deferred: decoding the output gives the input's events with every text that was complete before bypass was entered (all of them without bypass) as the rewrite leaves it, or withheld when the hook refuses it or a throw forbids it, and nothing else changed; until bypass only the message under way is missing, from bypass on nothing is |
| WsRewriting.DeliveredIsBeginning | src/common/gateway_websocket_upgrade_proxy.js:265-287 | what the proxy has sent on when a deferred text ends the connection decodes to a beginning of what the whole output decodes to |
| WsRewriting.DefaultFailsOnlyOnLength | src/common/gateway_ws_frame_sniffer.js:336-364 | in default mode a run fails only when a rewritten text has 4 GiB or more, and never with the admission hook |
| WsRewriting.EmitDecides | src/common/gateway_ws_frame_sniffer.js:336-364 | by the two callbacks alone: the push fails, or hands over one entry: sent only if the hook passes and no throw forbids it, and then read back as the replacement or the original; dropped when the hook refuses, or the rewrite throws after the hook, with a status; severed when without |
| WsValidation.EveryTextDecided | src/common/gateway_ws_frame_sniffer.js:336-364 | the same for every entry of every run in every mode, both directions for dropped and severed texts |
| WsLimits.BypassExactly | src/common/gateway_ws_frame_sniffer.js:247-320 | without validation, on well-formed streams: bypass is entered if and only if a chunk exceeds the 16 MiB buffer, a frame is announced over 16 MiB, or a fragmented text takes more than 4096 frames or 16 MiB |
| WsLimits.ForwardingSpan | src/common/gateway_ws_frame_sniffer.js:440-500 | in any stream, exactly which frames start and end the frame-by-frame forwarding of a message that cannot be rewritten |
| WsLimits.RefusesExactly | src/common/gateway_ws_frame_sniffer.js:305-521 | in fail-closed mode, for every byte stream and chunking: a push fails if and only if one of these limits is broken, a data frame is unmasked, uses a reserved bit, is neither text nor continuation or continues nothing, or, without the hook, the rewrite of a complete text throws or does not fit a frame |
| WsAccounts.NothingSwallowed | src/common/gateway_ws_frame_sniffer.js:366-534 | without validation, for any bytes, even malformed, chunking, flush and callbacks: every frame of the input is exactly once among those forwarded raw, those that make up a text, and those held; from bypass on every byte follows |
| WsValidation.FailClosedOnlyValidated | src/common/gateway_ws_frame_sniffer.js:305-521 | in fail-closed mode, with and without the admission hook, over every successful run without flush and for any bytes: at each entry the proxy has reached, the messages that decode upstream are, in order, exactly the texts that the hook passes and on which the rewrite does not throw, each as the rewrite left it; raw output completes no message |
| WsValidation.ScreenedMessages | src/common/gateway_ws_frame_sniffer.js:336-364 | entries that are silent frames or texts as their callbacks decided decode to exactly the texts that go upstream, with nothing left over |
| WsRewriting.BytesConserved | src/common/gateway_ws_frame_sniffer.js:366-534 | without rewrite and fail-closed no push fails, and for any bytes, even malformed, output plus buffer is the input; after a flush nothing is left behind |
| WsRewriting.ReplayHeld | src/common/gateway_ws_frame_sniffer.js:265-272 | releasing the held fragments rebuilds exactly the message under way and completes nothing |
| WsRewriting.WellFormedSplit | src/common/gateway_ws_frame_sniffer.js:366-534 | a complete prefix of a well-formed stream leaves a well-formed remainder |
| WsRewriterObject.ClientTextRewriter.Push | src/common/gateway_ws_frame_sniffer.js:366-534 | the object's push does what the specification says and keeps the held byte and frame counts equal to the sums over the held frames, within 16 MiB and 4096 |
| WsRewriterObject.ClientTextRewriter.DrainBuffer | src/common/gateway_ws_frame_sniffer.js:383-526 | the parse loop terminates and computes the recursive specification, through bypass and errors |
| WsRewriterObject.ClientTextRewriter.HandleFrame | src/common/gateway_ws_frame_sniffer.js:424-526 | every branch for one frame: control, unmasked, passthrough, continuation, first fragment, complete text |
| WsRewriterObject.ClientTextRewriter.FlushAll | src/common/gateway_ws_frame_sniffer.js:528-534 | a flush releases the held frames and the buffer and enters bypass |
| WsRewriterObject.ClientTextRewriter.RunDeferred | src/common/gateway_ws_frame_sniffer.js:336-343 | the deferred encoding: what becomes of a text by the answers of hook and rewrite alone, dropped and severed texts in both directions |
| WsEndpoint.AtMostOneClose | src/common/gateway_ws_endpoint.js:168-230 | in every run, with any socket and any handler, whose reactions may depend on the history, take several actions, throw, and react to the throw: the close callback runs at most once, no text is delivered and no frame written after it (a handler that closes and then throws is still reported), and a closed session stays as it is |
| WsAgreement.CutsTheSame | src/common/gateway_ws_endpoint.js:245-290 | on masked input the endpoint cuts exactly the frames the other readers cut, although it checks the mask first |
| WsAgreement.ControlsReadMasked | src/common/gateway_ws_endpoint.js:245-290 | an unmasked control frame is cut and unmasked as if its mask bit were set |
| WsAgreement.EndpointRefinesDecoder | src/common/gateway_ws_endpoint.js:231-355 | on masked streams within the buffer cap, with a socket that may refuse writes and a history-dependent handler that may throw, neither ending the session: the endpoint closes exactly when the stream is unacceptable, and otherwise has done what the decoded events call for, in order: each text delivered once, each ping answered once |
| WsAgreement.PingsAnswered | src/common/gateway_ws_endpoint.js:310-313 | on a writable socket the pongs sent are one for each ping, with its payload, in order, and no others |
| WsAgreement.ParsersAgree | src/common/gateway_ws_endpoint.js:231-355 | endpoint and sniffer report the same texts, each with its own chunking, socket and handler, and stand at the same unfinished message with the same unparsed bytes |
| WsFarewell.EveryEnd | src/common/gateway_ws_endpoint.js:231-355 | for every stream whose control frames are masked and every chunking: which frame or chunk ends the session, that all before it has been done, and that then, if the socket takes it, one close frame is sent, with the client's own code for a close frame, 1002 for unmasked data or RSV1 and 1009 for oversize, and the close callback run |
| WsFarewell.GoodbyeReads | src/common/gateway_ws_endpoint.js:88-96 | that close frame is read as a final, unmasked frame of opcode 8 with that code and reason |
| WsFarewell.AsksAreDone | src/common/gateway_ws_endpoint.js:168-215 | what the session's own calls to send, close or destroy write and report |
| WsEndpointObject.EndpointSession.Push | src/common/gateway_ws_endpoint.js:231-355 | the object's parser loop and close state do what the specification says |
| WsEndpointObject.EndpointSession.HandleFrame | src/common/gateway_ws_endpoint.js:294-354 | one frame of the endpoint: close, ping, pong, reserved bit, fragments, texts |
| Leases.LeaseStore.IncrConcurrency | src/infra/redis_lua.js:487-503 | afterwards the members are the own one, with the new expiry, and exactly those that expire after now, unchanged; the answer is their number |
| Leases.LeaseStore.RefreshConcurrencyLease | src/infra/redis_lua.js:505-525 | extends the own member exactly if it expires after now; keeps exactly the members that do |
| Leases.LeaseStore.DecrConcurrency | src/infra/redis_lua.js:527-545 | keeps exactly the other members that expire after now, and counts them |
| Leases.LeaseStore.GetConcurrency | src/infra/redis_lua.js:547-553 | keeps exactly the members that expire after now, and counts them |
| Admission.AdmissionSafety | src/infra/middleware_auth.js:681-696 | in every interleaving of requests, renewals, expiries and clean-ups, with stale clocks, failures and lost answers, granted requests with a live lease never exceed the limit, although each inserts itself before it checks |
| Admission.InsertionShape | src/infra/middleware_auth.js:358-402 | what an insertion changes, and the only phases it leads to |
| Admission.OthersOnlyRemove | src/infra/redis_concurrency_store.js:81-118 | no step but an insertion adds a member to the store |
| AdmissionProgress.StoreSteps | src/infra/redis_lua.js:487-545 | member by member, what each step of the machine does to the store |
| AdmissionProgress.GrantedWithRoom | src/infra/middleware_auth.js:358-402 | an answered first insertion or poll is granted if and only if fewer than `limit` other members are alive by its clock |
| AdmissionProgress.WaiterGetsIn | src/infra/middleware_auth.js:358-461 | from every moment of every run, a waiting request that polls while there is room becomes a running one with a fresh lease |
| AdmissionProgress.LetInIff | src/infra/middleware_auth.js:762-800 | a request that joins is let in exactly when the counter was below `maxQueue` |
| AdmissionProgress.GivesUpExactly | src/infra/middleware_auth.js:403-416 | a waiting request bears with all but the last of `maxFails` failed insertions in a row |
| AdmissionPairing.OwnersWithinLimit | src/infra/redis_concurrency_store.js:434-504 | if every clean-up delete comes while nobody owns a lease, every owner's lease is in the store with the expiry it last wrote, so owners never exceed the limit |
| AdmissionCleanUp.DeleteKeepsLimitIff | src/infra/redis_concurrency_store.js:471-485 | the exact condition, for every limit and every run whose deletes came in time so far: after the next delete the owners stay within the limit in all that may follow, further deletes aside, if and only if nobody owns a lease when it comes |
| AdmissionCleanUp.LateDeleteBreaksLimit | src/infra/redis_concurrency_store.js:471-485 | every run in which somebody owns a lease when the delete comes can go on, without another delete, to more owners than the limit, whatever the limit |
| AdmissionRenewal.RunningWithinLimit | src/common/gateway_ws_api_key_auth.js:84-132 | if the deletes come in time and no running request is ever left without a call of its own that reached the store for longer than a margin within the lease: each running request has a live member with the expiry of its last call, so the running requests never exceed the limit |
| AdmissionRenewal.LeaseNeverLapses | src/common/gateway_ws_api_key_auth.js:44-132 | for every configuration the derived renewal period leaves that margin: renewals at most five seconds late never let a running request's lease lapse |
| AdmissionPairing.QueuePairing | src/infra/middleware_auth.js:762-961 | at every moment the waiting counter is the number of waiting requests plus those whose last attempt to leave failed, and at most `maxQueue` requests wait |
| AdmissionPairing.CleanExits | src/infra/middleware_auth.js:343-461 | a request that ends without admission and whose last release was answered, or that released its slot with an answer, has no lease |
| AdmissionPairing.ReleasesExactlyOnce | src/infra/middleware_auth.js:1016-1069 | whatever end events arrive, in whatever order and number, the release call is made exactly once, and only for an admitted request |
| Polling.IntervalBounds | src/infra/middleware_auth.js:150-159 | the poll interval stays within 200 and 2000 ms and grows at least by a fifth until it reaches the cap, for every jitter sequence |
| Polling.NextByFactor | src/infra/middleware_auth.js:417-431 | the next interval is the present one times a factor that the draw picks evenly between 1.2 and 1.8, or the cap |
| Polling.IntervalGrows | src/infra/middleware_auth.js:417-431 | the poll interval never decreases |
| Polling.CapReached | src/infra/middleware_auth.js:417-431 | thirteen updates reach the cap |
| Polling.SleptAtLeast | src/infra/middleware_auth.js:414-431 | the time slept before a poll, from which the bound on polls follows |
| Polling.WaitForConcurrencySlot | src/infra/middleware_auth.js:304-461 | the wait ends at the first turn at which the time is up, the client is gone, an insertion takes effect with fewer than `limit` others alive, or the allowed number of insertions (5 if none is set) has failed in a row, for the first of these reasons, after exactly that many polls; a slot comes with a fresh member; the counter is left once; other exits whose removals work leave no member; at most 14 + timeout/2000 polls |
| Renewal.RenewalWithinLease | src/common/gateway_ws_api_key_auth.js:44-66 | for every configuration the renewal period is at least 15 s and at most the lease less 5 s |
| Renewal.RenewalHonoursConfig | src/common/gateway_ws_api_key_auth.js:44-66 | renewal is off exactly when set to zero or less; otherwise its period is the permitted value nearest to the one set, and the lease the one set, at least 30 s |
| Renewal.TimerLife | src/common/gateway_ws_api_key_auth.js:93-120 | after n ticks of the timer, each as `OnTick` makes it: it renews at each tick up to its maximum, expires once, then rests |
| Renewal.RenewalTimer.OnTick | src/common/gateway_ws_api_key_auth.js:96-120 | one tick of the timer object moves its fields by the step that the timer's life is made of |
| Renewal.LifetimeCovered | src/common/gateway_ws_api_key_auth.js:88-92 | the renewals cover the configured lifetime and less than one interval more |
| Billing.ExactlyOnce | src/infra/redis_cost_stats_store.js:89-165 | for every pattern of lost replies and late arrivals and every interleaving of calls sharing an id: a call that returned true is billed exactly once, one that returned false not at all, and then another call was billed for its id, any call at most once; the totals are the sums over the settled ids |
| Billing.VerdictsFinal | src/infra/redis_cost_stats_store.js:89-165 | once a call has returned true or false, no later step changes how often it is billed |
| Billing.ThrowsAfterThree | src/infra/redis_cost_stats_store.js:113-148 | a call makes at most three attempts and throws only when the third has failed |
| Billing.SettleBalanced | src/infra/redis_lua.js:350-370 | the script keeps marks, totals and settled ids in step |
| Billing.CostStore.Eval | src/infra/redis_lua.js:350-370 | one run of the script on the stored totals |
| Billing.IncrementDailyCost | src/infra/redis_cost_stats_store.js:113-165 | the retry loop, with other callers between attempts: an error exactly when none of three attempts is answered, and then billed at most once and only if some answer was lost; true means billed once, false that the id is another's |
| AccountCost.ResolvedCost | src/infra/redis_cost_stats_store.js:248-304 | however priced and unpriced requests are mixed, the resolved cost is the sum of the exact costs plus the price of exactly the unpriced tokens, with the exact case in which that price is missed |
| AccountCost.ResolvedIsDue | src/infra/redis_cost_stats_store.js:248-304 | the price is asked for, kind by kind, the sum of the tokens of the unpriced requests, with the split by cache lifetime exactly when one has tokens |
| AccountCost.DamagedRecords | src/infra/redis_cost_stats_store.js:258-279 | for any record, damaged or not: the tokens priced are never negative and the fewest that cover the rest, and a stored cost not above zero counts as none |
| AccountCost.AccountPays | src/infra/redis_cost_stats_store.js:307-348 | the daily cost of an account is what is due for the requests of the models listed for it |
| AccountCost.ModelsListed | src/infra/redis_cost_stats_store.js:307-330 | a model is read off the index exactly as often as the index has the entry of account, colon and model |
| AccountCost.PricedOnce | src/infra/redis_usage_stats_store.js:528-534 | no later price list changes the cost of priced requests, free ones included |
| AccountCost.RecordedDivides | src/infra/redis_usage_stats_store.js:607-622 | the writer's totals are the priced tokens plus the unpriced ones |
| AccountCost.RecordedCost | src/infra/redis_usage_stats_store.js:607-622 | the stored cost is the sum of the exact costs |
| AccountCost.PrefixIsCut | src/infra/redis_cost_stats_store.js:365-381 | for a colon-free id, cutting an index entry at its first colon and matching the id's prefix select the same entries |
| AccountCost.GetAccountDailyCost | src/infra/redis_cost_stats_store.js:307-348 | the loop over the index computes the account's cost |
| AccountCost.BatchGetAccountDailyCost | src/infra/redis_cost_stats_store.js:351-423 | for a non-empty index every colon-free account gets what the per-account reader gives and an id with a colon gets zero; for an empty one the fallback's value, zero on failure |
| AccountCost.GroupEntries | src/infra/redis_cost_stats_store.js:364-381 | grouping gives every wanted account its models in index order |
| AccountCost.ColonIdLost | src/infra/redis_cost_stats_store.js:365-381 | an id with a colon that costs something is charged by one reader and missed by the other |
| Catalog.OptimisticRefinesAtomic | src/infra/redis_account_model_store.js:40-76 | after every interleaving of recorders and other writers the stored account is what the same writes give applied atomically one by one; giving up takes five lost commits |
| Catalog.RepliesLinearize | src/infra/redis_account_model_store.js:40-76 | every reply but giving up is the one the atomic script would have given at some moment of the call |
| Catalog.CommitIsAtomic | src/infra/redis_account_model_store.js:58-70 | a commit that goes through is the atomic script on the value current at that moment and changes only the catalog |
| Catalog.AttemptTimeGrows | src/infra/redis_lua.js:71-98 | while only recorders write the catalog the stored attempt time never decreases and a good discovery is never lost |
| Catalog.LastGoodKept | src/infra/redis_lua.js:71-98 | while only recorders write the catalog, after every interleaving the stored models and their date are those of the latest recorded discovery that found models and was not older than the attempt before it, or those from the start; the stored time and error are those of the latest attempt |
| Catalog.RecordAccountModelCatalog | src/infra/redis_account_model_store.js:40-76 | the watch, read, commit loop: a committed reply is the atomic script on the value at commit, no undisturbed attempt fails, and at most five are made |
| LogWindow.WindowRefinesSort | scripts/logs.js:244-264 | for every sequence of entries and every limit the window is the last `limit` elements of their stable sort by time |
| LogWindow.SortAllIsStable | scripts/logs.js:244-264 | inserting behind equal times is a stable sort |
| LogWindow.StableSortUnique | scripts/logs.js:244-264 | two stable orders of the same entries are equal |
| LogWindow.InsertIntoLast | scripts/logs.js:260-263 | inserting into the last entries and dropping the first is inserting into all and keeping the last |
| LogWindow.LogView.Accept | scripts/logs.js:245-264 | one accepted or skipped line keeps the window equal to the reference |
| LogWindow.LogView.FindPlace | scripts/logs.js:250-259 | the binary search finds the place behind every entry that is not later |
| ResetPeriod.PeriodBounds | src/common/timezone.js:55-86 | a reset is at or before an instant exactly when it is at or before the period start, after it exactly when it is at or after the next reset; start, instant and next reset are in order, one week apart up to the offset |
| ResetPeriod.SamePeriod | src/common/timezone.js:32-53 | two instants share a period exactly when no reset lies between them |
| ResetPeriod.StartIsReset | src/common/timezone.js:71-86 | the period start is itself a reset, at or before the instant and less than a week before it |
| ResetPeriod.NextIsReset | src/common/timezone.js:55-69 | the next reset is a reset, strictly after the instant and at most a week away |
| ResetPeriod.ResetsApart | src/common/timezone.js:32-86 | two different resets are at least a week apart |
| ResetPeriod.WeekdayFollowsCalendar | src/common/timezone.js:32-86 | the first of January 1970 is a Thursday, and each day is followed by the next weekday |
| RequestStats.ObservedRequest.RecordRelayResult | src/common/http_request_stats.js:26-50 | a verdict moves the totals by the difference of what the request contributes before and after |
| RequestStats.ObservedRequest.RecordHttp | src/common/http_request_stats.js:51-68 | the first end of a request counts it once, in its status bucket, and judges an unjudged upstream answer |
| RequestStats.HttpRequestStats.Observe | src/common/http_request_stats.js:17-25 | health paths are not observed |
| RequestTally.FlagsFollowHistory | src/common/http_request_stats.js:18-69 | the four flags of a request say exactly what its accepted verdicts and first end say |
| RequestTally.TotalsSinceReset | src/common/http_request_stats.js:1-78 | at every moment of every run the counters are the sum over all requests' histories less that sum at the latest reset |
| RequestTally.CountersConserved | src/common/http_request_stats.js:1-78 | `requests` is completed plus disconnected and relay `total` is completed plus failed plus incomplete, even across resets |
| RequestTally.CountersCount | src/common/http_request_stats.js:1-78 | without a reset no counter is negative, and `requests`, `total` and `unmetered` count exactly the ended, the judged and the requests whose latest accepted verdict about usage found none |
| RequestTally.EveryCounterCounts | src/common/http_request_stats.js:26-68 | without a reset each of the other counters is the number of requests it names: responses finished, dropped, or seen with a status of its hundred; latest accepted verdicts that are failures, incomplete or neither |
| RequestTally.FinalStays | src/common/http_request_stats.js:27-29 | after a final verdict a verdict that is not final changes nothing |
| RequestTally.ResetGoesNegative | src/common/http_request_stats.js:75-77 | any request judged failed before a reset that improves after it leaves `failed` at minus one |
| RequestTally.NonNegativeAcrossReset | src/common/http_request_stats.js:75-77 | for every run with resets: the counters are non-negative exactly when each count over the requests is at least what it was at the latest reset, and so whenever no request judged before it has accepted a verdict since |
| AuditNames.MatchedItem | src/common/logger.js:291-303 | an adopted file is a log or that log's archive, and its logical name is an ordinary file name |
| AuditNames.MatchesPattern | src/common/logger.js:291-296 | the pattern takes exactly the names of prefix, date, suffix, perhaps a counter and perhaps the archive's ending |
| AuditNames.BaseIsLast | src/common/logger.js:271-274 | the last component is what follows the last separator of either kind |
| AuditRecords.FoldFolds | src/common/logger.js:270-282 | folding leaves one entry per logical name in this directory's view with matching hash, each from an original entry, none older than an original it stands for |
| AuditRecords.FoldKeeps | src/common/logger.js:270-282 | a record of ordinary names in this view is folded to itself |
| AuditRecords.ByDateSorts | src/common/logger.js:319-322 | sorting keeps exactly the entries, oldest first |
| AuditRecords.ByDateIsStable | src/common/logger.js:319-322 | entries of equal dates keep their order |
| AuditConvergence.AdoptComplete | src/common/logger.js:291-313 | after adoption every listed log is recorded, and something was added exactly when an orphan was listed |
| AuditConvergence.AdoptDates | src/common/logger.js:303-311 | each adopted entry carries the modification time of a listed file of its log |
| AuditConvergence.WrittenRecord | src/common/logger.js:319-369 | a written record has unique names, matching hashes and files that were there; by number it keeps the limit, evicting no more than it must; every evicted entry is no newer than every kept one; nothing else is lost |
| AuditConvergence.WrittenHashes | src/common/logger.js:352-369 | the written record points to itself and keeps its hash type and mode, and each entry has the hash that the rotator checks before it deletes |
| AuditConvergence.SettlesIff | src/common/logger.js:240-370 | after a run whose deletions succeed a second run writes and deletes nothing if and only if the first wrote nothing or every kept entry names a file of the directory of which the log or the archive remains |
| AuditConvergence.SettlesForLogNames | src/common/logger.js:240-370 | the self-heal settles after one run for every record whose entries end in ordinary names that are not archives, written from any views, and every directory |
| AuditConvergence.DotEntryUnsettled | src/common/logger.js:271-289 | a record with an entry that ends in a dot name and is not evicted is rewritten by this run and by the next |
| AuditConvergence.ArchiveEntryUnsettled | src/common/logger.js:337-347 | a kept entry that names an archive loses its file when that log is evicted, and the next run rewrites the record |
| AuditConvergence.StaleRecordUnsettled | src/common/logger.js:240-370 | in every directory with room for two logs, one log and its archive recorded as two entries make such a record |
| AuditRest.RestsIff | src/common/logger.js:240-370 | a run does nothing if and only if the record points to itself, its entries are different ordinary files of the directory that are there as log or archive, and every log there is recorded |
| AuditObject.LogDirectory.HealAuditFile | src/common/logger.js:240-370 | the run in place writes exactly when something changed and leaves record and directory as specified |
| AuditObject.LogDirectory.Normalise | src/common/logger.js:270-285 | the two loops compute folding and dropping |
| AuditObject.LogDirectory.AdoptOrphans | src/common/logger.js:291-313 | the loop over the directory computes the adoption |
| AuditObject.LogDirectory.Trim | src/common/logger.js:335-350 | the eviction loop keeps the newest and deletes each evicted log with its archive |

## Left out

- WsRewriting.RewritingPreservesMeaning: a deferred text is given its outcome when it is queued; the time until the proxy awaits it, and what else happens meanwhile, is not modelled.
- WsRewriterObject.ClientTextRewriter.Push: says nothing about the object after a push that throws; the proxy drops the connection then.
- UTF-8 decoding and encoding: a text is its bytes, so a text that is not valid UTF-8 is modelled as unchanged.
- Missing callbacks of the sniffer, its log output and its label.
- Sockets, upgrade handshakes, timers as such and the order of Node's event queue, beyond the interleavings of the state machines.
- WsFarewell.AsksAreDone: a close reason is ASCII; the source cuts it at 123 UTF-16 units before it encodes it.
- WsFarewell.EveryEnd: streams with an unmasked control frame, of which only the cut is stated.
- WsAgreement.ParsersAgree: does not cover unmasked or reserved-bit streams, on which the endpoint closes and the sniffer goes on.
- WsEncoders.EncodeWsFrame: payloads of 4 GiB and more, which the source's 32-bit write rejects.
- Polling.WaitForConcurrencySlot: a lost answer of the insertion inside the loop is modelled in `Admission` and not in this method.
- Admission.AdmissionSafety: one API key and one limit; a configuration change in mid-run is not modelled.
- AdmissionPairing.QueuePairing: the waiting counter's own expiry and the clearing of queues at startup are not modelled.
- AdmissionPairing.OwnersWithinLimit: the clean-up over many keys and over keys of an old type is one key's steps here.
- AdmissionRenewal.LeaseNeverLapses: a renewal that reaches the store later than five seconds after its tick may come too late; a duration is measured from one call to the next.
- Queue admission by overload statistics, and the wait-time statistics.
- Administrator operations that clear leases or queues on purpose.
- Billing.ExactlyOnce: the expiry of the dedup marks is not modelled, so a retry after it would be billed again; usage statistics written beside the totals are left out.
- AccountCost.BatchGetAccountDailyCost: both readers see one snapshot of the index and records; the fallback's key scan is a parameter.
- AccountCost.ResolvedCost: the monthly and hourly records, which follow the same rule, and numbers that do not parse.
- Catalog.OptimisticRefinesAtomic: the account's other fields are one opaque map, and JSON encoding is left out.
- ResetPeriod.SamePeriod: the period is identified by its start; writing that as year, month, day and hour, and the ISO week string, are left out.
- RequestStats.ObservedRequest.RecordHttp: status codes are numbers, and each observation is a request of its own.
- AuditConvergence.SettlesIff: POSIX paths; entry dates are numbers; deletions succeed; a damaged audit file has been deleted; files do not come and go by other hands between the two runs.
- LogWindow.LogView.Accept: parsing of lines and the filter itself; the filter is an arbitrary predicate.
- Clean-up of mangled audit files in the working directory, and the rotation library itself.
