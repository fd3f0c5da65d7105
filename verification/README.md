# Dasher verification

A Dafny model of Dasher, the CDC consumer that reads Redis streams in consumer groups, enriches
events, hands them to handlers and emits them downstream, with proofs of what its code promises.
`dafny verify dfyconfig.toml` checks all of it.

## What is modelled

**The consumer group** (`PendingList`, `Protocol`). Any number of processes share one stream and
group. Each Redis command is one atomic step on the stream log, the group cursor and the
pending-entries list; a process remembers only its batch, its in-flight entry, a page of XPENDING and
a page of XINFO, all of which may be stale when used. A handler call is a list of effects that a crash
can cut anywhere. Start, crash, time, stream appends, lost replies and every interleaving are steps.
On runs of this system: at-least-once conservation and the one gap in it (`Conservation`, `ConsumerGc`),
recovery of pending entries (`Recovery`), in-order delivery under one name (`Ordering`), spacing of
takeovers (`Takeovers`), the exact reach of the heartbeat (`Heartbeat`, `Durations`), and delivery
across streams (`Delivery`, `EndToEnd`).

**The loops of one consumer** (`Consume`, `OwnEntries`, `Backoff`). A `Consumer` class against a
`Server` class: the ack and retry loops, `process`, `selfReclaim`, `peerReclaim`, `gcConsumers` and the
main loop and the heartbeat's tick, with loop invariants and termination measures. Answers of the world are a
script: the n-th handler reply, the fate of the n-th command, the wait after which the context is cancelled.

**The link between the two** (`Refinement`). Every one of these methods carries the state of the transition system
along and ensures `Follows`: whatever the script answers, what it has done to the pending list, the cursor and the
call log is a run of the protocol's steps. So what is proved of the protocol's reachable states holds of where the
loops stop (`Refinement.FollowsIsLeads`, `Refinement.ReachableThroughout`).

**The handler chain** (`Bindings`, `Pipeline`, `Lookups`). Enrich, base handler, EmitAfter as the code
composes them; the rule runner and bind resolution. Lookups, handlers and XADD answer as oracles.

**The envelope** (`Events`, `JsonText`, `JsonValue`, `Calendar`, `Rfc3339`, `Envelope`). JSON printer and
parser, timestamps, `Producer.Emit` and `Parse`. Beside the readers stand the grammars they are proved to accept
exactly: sections 2 to 7 of RFC 8259 (`JsonLexical`, `JsonGrammar`), section 5.6 of RFC 3339 as time.Parse reads
it (`Timestamps`), and the envelope (`EnvelopeGrammar`); `JsonOutput` is about the text that is written.

**The cache** (`RecencyList`, `Recency`, `LruTrace`, `Cache`, `CacheKey`, `CachedLookup`). A hash map and a
doubly linked list of real nodes changed together, refining one sequence of entries; the key; the
cached lookup under any interleaving of reads and later writes.

**The emit graph** (`EmitGraph`, `EmitChains`) and **the gateway token** (`Gateway`).

`Wrappers`, `Decimals` and `SortedKeys` are shared helpers.

## Results that differ from what one might expect

- Conservation fails exactly when gcConsumers deletes a consumer that has gained an unhandled entry since
  its XINFO was read: `ConsumerGc.ConservedThroughout` and `ConsumerGc.LossIsGain` say so for whole runs,
  and `ConsumerGc.GcCanLoseAnEntry` shows a run in every configuration that loses any given event for good.
- One lost heartbeat is tolerated exactly when twice the interval is below reclaimMinIdle. With the
  default interval (half of reclaimMinIdle) and the default 30s that is false
  (`Durations.OneLostHeartbeat`).
- Load accepts a reclaimMinIdle of 1ns with a default heartbeat interval of 0 (`Durations.AcceptedHeartbeat`).
  With it the heartbeat loop panics, because time.NewTicker does on an interval of 0.
- The cache key is not injective once a bind has two parameters: a string value can spell the separator
  of the next one (`CacheKey.KeyInjectivityIsExact`). One parameter is enough when values can be lists or
  maps (`CacheKey.CompositesCollide`). It is injective on plain values whose rendering contains no `|`.
- The cycle check keeps only the last edge of a consume key. It agrees with the graph of all bindings
  exactly when the emitting bindings consume pairwise distinct keys, or all the same one
  (`EmitChains.ExactnessOfTheCheck`).
- An event whose UTC year is outside 0 to 9999, or whose payload nests more than 10000 deep, is emitted
  but cannot be read (`Envelope.HopRoundTrip`).
- The fallback to the plain TTL fires only when the jittered duration overflows int64
  (`Recency.EffectiveTtlBound`), not when the jitter is too negative.

Where code and documentation disagree the code is followed: reclaim is XPENDING then XCLAIM and not
XAUTOCLAIM, and the group is named after the instance and not "dasher". The comment on the heartbeat's
MinIdle 0 says the entry is owned already; the model lets a late heartbeat take an entry back from a
peer, as the code does. The heartbeat's warning that a peer stole the entry is in fact logged when the
entry has been acknowledged, since XCLAIM ignores only entries that are not pending.

## Model

| member | source | states |
|---|---|---|
| Conservation.StepSound | dasher/internal/consume/consume.go:166-494 | every step of every process keeps: only delivered entries are pending, an acked entry was handled, is not pending, and no heartbeat or claim brings it back |
| Conservation.AckedWasHandled | dasher/internal/consume/consume.go:451-459 | in every reachable state of any number of processes, acked entries are handled entries and none is pending again |
| Conservation.StepConserves | dasher/internal/consume/consume.go:375-399 | a step keeps every delivered entry pending or handled if and only if it is not a GC of a consumer that owns an unhandled entry |
| Conservation.AtLeastOnce | dasher/internal/consume/consume.go:243-494 | along every run whose GC steps remove no unhandled entry, each delivered entry is pending with one owner or its handler has returned nil |
| ConsumerGc.ConservedThroughout | dasher/internal/consume/consume.go:375-399 | a run conserves at every moment if and only if none of its GC steps removes an unhandled entry |
| ConsumerGc.VictimOwnedNothing | dasher/internal/consume/consume.go:376-388 | every DELCONSUMER acts on a line of its own process's last XINFO, at which the victim owned nothing |
| ConsumerGc.LossIsGain | dasher/internal/consume/consume.go:376-389 | a DELCONSUMER loses nothing if and only if what the victim has gained since that XINFO is handled |
| ConsumerGc.ConservedUnlessVictimGains | dasher/internal/consume/consume.go:372-399 | if no victim gains a pending entry between XINFO and DELCONSUMER, each delivered entry is at every moment of the run pending or handled |
| ConsumerGc.ConservedIfVictimsStopped | dasher/internal/consume/consume.go:372-396 | what the pending == 0 guard buys: the same if no victim's process takes a step in between, whatever the others do |
| Conservation.StoppedConsumerGainsNothing | dasher/internal/consume/consume.go:243-336 | a consumer gains pending entries by its own commands only, whatever the others do |
| Conservation.LostForever | dasher/internal/consume/consume.go:375-399 | an entry that is delivered, unhandled, not pending and held by no process never comes back |
| ConsumerGc.GcCanLoseAnEntry | dasher/internal/consume/consume.go:376-389 | in every configuration and for any event there is a run in which a consumer idle for the GC timeout reads that event between XINFO and DELCONSUMER, and it is lost for good |
| Recovery.Recoverable | dasher/internal/consume/consume.go:236-336 | from every reachable state a process that starts only now can take over a pending entry, handle it and acknowledge it, if it and the pending entries before it are well-formed and every column their rules bind has a value |
| Recovery.OnlyCurableAcked | dasher/internal/consume/consume.go:430-494 | the condition is needed: in every reachable state only well-formed entries with complete binds are acknowledged |
| Ordering.RunsInOrder | dasher/internal/consume/consume.go:188-286 | with one consumer name, one binding on the key and fail loud, delivered entries split at a point into acknowledged ones and ones pending for that name, through any crashes |
| Ordering.InOrderDelivery | dasher/internal/consume/consume.go:188-286 | under the same conditions acked is a prefix of the stream, the call log without adjacent repeats is a prefix of the stream, and XREADGROUP is sent with an empty own PEL |
| Takeovers.TakeoversAreLogged | dasher/internal/consume/consume.go:319-329 | an entry changes owner in a peer claim exactly when it is logged as a takeover |
| Takeovers.TakeoversAreSpaced | dasher/internal/consume/consume.go:320-326 | two takeovers of one entry by any peers with stale lists are at least reclaimMinIdle apart in every run |
| Heartbeat.NeverClaimable | dasher/internal/consume/consume.go:405-446 | an in-flight entry with at most k lost beats in a row is never claimable by a peer if its idle time at the next tick plus k intervals, and 1 + k intervals, stay below reclaimMinIdle, however long the handler, retry and ack loops run |
| Heartbeat.HeartbeatBoundIsExact | dasher/internal/consume/consume.go:405-421 | that bound is exact at any phase of the ticker: some punctual run exposes the entry if and only if one of the two reaches reclaimMinIdle |
| Heartbeat.PunctualStaysOnTime | dasher/internal/consume/consume.go:405-412 | a ticker that is never late has its next tick at most one interval away in every run |
| Heartbeat.ProcessPublishes | dasher/internal/consume/consume.go:443-446 | every entry a punctual process starts to handle meets the premises of the bound |
| Durations.Load | dasher/internal/config/config.go:193-226 | the checks in sequence, each with its early return, yield the durations or the first error |
| Durations.LoadAcceptsExactly | dasher/internal/config/config.go:193-226 | what is accepted, case by case with the defaults in nanoseconds, that given durations are taken, and which check names the error otherwise |
| Durations.DefaultsAreAccepted | dasher/internal/config/config.go:193-226 | an empty environment is accepted and gives 30s, 5s, 5min, 10min and 15s |
| Durations.AcceptedHeartbeat | dasher/internal/config/config.go:193-226 | what Load accepts: 0 < minIdle < gcTimeout, twice the heartbeat at most minIdle, and a positive heartbeat if and only if minIdle is at least 2ns |
| Durations.AcceptedConfigHolds | dasher/internal/config/config.go:216-226 | under any accepted configuration with a positive interval an entry not yet reclaimable at the next tick is not stolen from a punctual process |
| Durations.OneLostHeartbeat | dasher/internal/config/config.go:216-226 | with a positive interval one lost beat is survived if and only if twice the interval is below minIdle; with the default interval if and only if minIdle is odd |
| Delivery.StepFaithful | dasher/internal/middleware/emit.go:12-19 | every step keeps effects in the order enrichment, handler success, append of that same event, and a nil return means that the last stage happened |
| Delivery.RunsFaithful | dasher/cmd/dasher/main.go:163-206 | that order holds in every reachable state |
| Delivery.AckedWasDelivered | dasher/internal/consume/consume.go:451-459 | each acked entry of a binding with emit was appended to its target, with its own event and an enrichment the runner produced for it |
| Delivery.NoOrphanEmits | dasher/internal/middleware/emit.go:12-19 | each appended event follows a base-handler success on that very event, even when XADD replies are lost and retried |
| EndToEnd.AppendedArrives | dasher/internal/produce/produce.go:43-86 | each appended entry is read downstream as the upstream event with the produced enrichment |
| EndToEnd.AckedArrives | dasher/cmd/dasher/main.go:163-206 | in every reachable state each acked entry has a downstream entry that parses to the same op, table, schema, lsn, data, old and time, with an enrichment the runner produced |
| Pipeline.BuildHandlerComposes | dasher/cmd/dasher/main.go:163-206 | buildHandler fails exactly on an unknown handler or lookup and names the first one; otherwise the base is the binding's handler, the rules are its enrich list in order, outermost, and EmitAfter stands exactly for a binding with emit |
| Pipeline.CallAnswers | dasher/internal/middleware/emit.go:12-19 | for every composed handler, event and luck: nil exactly when the runner enriches, the base replies nil and XADD is confirmed; poison exactly on a miss or a base poison, panic exactly on a base panic; the success and the append happen exactly when they should |
| Pipeline.CanSucceed | dasher/internal/middleware/enrich.go:17-32 | some answers of the world make a call on the event succeed if and only if every column its rules bind has a value in the new or the old row |
| Pipeline.StagesInOrder | dasher/internal/middleware/enrich.go:17-32 | for every luck a call's effects are staged, and a nil reply means that every stage happened |
| Lookups.Run | dasher/internal/lookup/runner.go:52-97 | the loop computes the fold over the rules whatever order binds are walked in; lookups asked are those of a prefix of the rules, and an incomplete bind reaches none |
| Lookups.RunnerDenotation | dasher/internal/lookup/runner.go:52-97 | a run enriches if and only if every rule has a complete bind and one row; then each key holds the row of the last rule that names it, and otherwise the first failing rule decides between poison and retry |
| Lookups.BindIsNewValue | dasher/internal/lookup/bind.go:25-54 | a non-null new value is what is bound, whatever the old row holds: strings, booleans, lists and maps as they are, a number as the int64 it spells, else as a float, else as its text |
| Lookups.BindIsOldValue | dasher/internal/lookup/bind.go:25-54 | only when the new row has no value is the old one bound, by the same rule |
| Lookups.ResolveBindNil | dasher/internal/lookup/bind.go:25-38 | a bind is nil if and only if the column is missing or null in both rows |
| Lookups.BuildBind | dasher/internal/lookup/runner.go:55-71 | the bind map of a rule, or none as soon as a column resolves to nil, in whatever order the parameters are walked |
| Lookups.ParseInt64IsExact | dasher/internal/lookup/bind.go:42-54 | a number's text becomes an int64 v if and only if it spells v in decimal and v is in range |
| Lookups.DecimalIsParsed | dasher/internal/lookup/bind.go:42-54 | what %v prints of an int64 is parsed back to it |
| Consume.Consumer.AckUntilDone | dasher/internal/consume/consume.go:457-470 | the ack loop ends at the first confirmed ack or at cancellation, waits 100ms after each other attempt, and the entry is gone if and only if some attempt took effect |
| Consume.Consumer.CallUntilSettled | dasher/internal/consume/consume.go:448-493 | every call but the last failed transiently; one log line and one wait a retry, with the doubled and capped waits and ERROR exactly from escalateAfter on |
| Consume.Consumer.Process | dasher/internal/consume/consume.go:430-494 | the last reply decides between ack, OnFatal and cancellation; no ack attempt without a nil return; a malformed envelope never reaches the handler; it is cancelled only when the context is over and loud only on this entry |
| Consume.Consumer.ProcessAll | dasher/internal/consume/consume.go:215-221 | a batch moves from pending to acknowledged in order, all of it without an error and without a wait when the world is as it should be; an error is cancellation or an entry that stops it |
| Consume.Consumer.ReclaimOwnPage | dasher/internal/consume/consume.go:244-284 | one page of the own queue is listed, claimed and processed in order; a full page leaves fewer entries, any other none; a Redis error exactly at a failed command |
| Consume.Consumer.SelfReclaim | dasher/internal/consume/consume.go:243-286 | drains the own queue in order, returns nil only when it is empty, terminates, and leaves everyone else's entries alone; a Redis error exactly at a failed command, and no other error but cancellation and a stopping entry |
| Consume.Consumer.PeerReclaim | dasher/internal/consume/consume.go:296-336 | takes over exactly the entries others own that are idle for reclaimMinIdle, for any list and page size, and leaves own entries as they were; it fails exactly when a command fails; and it is a run of the protocol's scan steps |
| OwnEntries.PageTakesOver | dasher/internal/consume/consume.go:299-334 | claiming one page takes over exactly what the exclusive cursor has got past |
| OwnEntries.NothingLeftToSteal | dasher/internal/consume/consume.go:288-295 | a complete takeover leaves nothing stealable, drops no entry and changes none of the caller's |
| Consume.Consumer.GcConsumers | dasher/internal/consume/consume.go:375-399 | without interference no entry is lost, and without a failing command exactly the idle consumers without entries go; it fails exactly when XINFO does; and it is a run of the protocol's GC steps |
| Consume.Consumer.RunLoop | dasher/internal/consume/consume.go:175-223 | alone on a stream it acknowledges a prefix of what it held and then of the stream, and is a run of the protocol; a failed command ends it, else only a context that is over or an entry that stops it; if all goes well it acknowledges the whole stream and goes on until the context is over |
| Consume.Consumer.Turn | dasher/internal/consume/consume.go:188-221 | one turn drains, reads and processes; it returns nil after an idle BLOCK, and each of its errors has its cause |
| Consume.Consumer.ReadNew | dasher/internal/consume/consume.go:199-214 | XREADGROUP makes the next entries of the stream the own queue; a failure is a Redis error unless the context is over |
| Consume.Consumer.Beat | dasher/internal/consume/consume.go:405-421 | a heartbeat makes the entry in flight, if still pending, its own with no idle time, touches no other, and is a run of the protocol's beat steps |
| Refinement.ProcessIsARun | dasher/internal/consume/consume.go:430-494 | from a batch in hand, the calls, replies and ack attempts that process makes are a run of the protocol with the same calls, the same effect on the pending list and the matching end |
| Refinement.FollowsIsLeads | dasher/internal/consume/consume.go:166-494 | what the methods ensure of the protocol, that every property kept by all its steps still holds, is that some run leads there |
| Refinement.ReachableThroughout | dasher/internal/consume/consume.go:166-494 | a consumer that starts in a reachable state of the protocol stops in one |
| Backoff.WaitClosedForm | dasher/internal/consume/consume.go:448-492 | the wait after failure k + 1 is 100ms times 2 to the min(k, 9), at most 51.2s |
| Backoff.TotalClosedForm | dasher/internal/consume/consume.go:448-492 | k failures wait 100ms times (2 to the k less 1) in all up to ten, and 51.2s more for each after |
| JsonLexical.LiteralRead | dasher/internal/event/event.go:88-96 | every string literal by section 7 of RFC 8259 is read, escapes in either case and surrogate pairs included, as the string it spells |
| JsonLexical.LiteralSound | dasher/internal/event/event.go:88-96 | and only those are |
| JsonLexical.PairsAreUtf16 | dasher/internal/event/event.go:88-96 | a surrogate pair stands for a scalar exactly when UTF-16 encodes it so |
| JsonLexical.NumbersAreExact | dasher/internal/event/event.go:88-90 | the text kept of a number is one by the grammar of section 6, and any of those can be kept |
| JsonGrammar.ReaderIsExact | dasher/internal/event/event.go:88-96 | the reader gives a value and a rest if and only if the text is white space, a text of that value by sections 2 to 7 of RFC 8259 within the nesting limit, and that rest |
| JsonGrammar.TreeRead | dasher/internal/event/event.go:88-96 | white space before or after any value, key, bracket, brace, colon or comma changes neither the value nor the text after it |
| JsonOutput.PrintedIsHarmless | dasher/internal/produce/produce.go:59-79 | what is marshalled contains no control character, no HTML character and no U+2028 or U+2029 |
| JsonText.CharsRoundTrip | dasher/internal/event/event.go:88-96 | every string is read back from its escaped literal |
| JsonText.NumberRoundTrip | dasher/internal/event/event.go:88-90 | a number's exact text is read back |
| JsonText.NumberRead | dasher/internal/event/event.go:88-90 | the text kept for a decoded number is again a JSON number |
| JsonValue.ValueRoundTrip | dasher/internal/event/event.go:88-96 | a printed value nested within the limit is read back, leaving the text after it |
| JsonValue.TooDeep | dasher/internal/event/event.go:88-96 | a value nested beyond the limit is not read back |
| JsonValue.ValueRead | dasher/internal/event/event.go:88-96 | a decoded value has JSON numbers only and nests within the limit |
| Rfc3339.RoundTrip | dasher/internal/produce/produce.go:55 | a formatted time is read back to the second exactly when its UTC year is in 0 to 9999 |
| Calendar.DateOf | dasher/internal/produce/produce.go:55 | the civil date of a day is a valid date of that day |
| Calendar.DateOfDay | dasher/internal/produce/produce.go:55 | every valid date is the one date of its day |
| Calendar.YearsAreExact | dasher/internal/produce/produce.go:55 | days before a year are 365 a year and one for each leap year of the Gregorian rule, before and after year 0 |
| Calendar.MonthsAreExact | dasher/internal/produce/produce.go:55 | days before a month, in closed form |
| Calendar.Anchors | dasher/internal/produce/produce.go:55 | the Unix epoch is day 719528, and 400 years are 146097 days |
| Timestamps.NanosAreExact | dasher/internal/event/event.go:44-46 | a fraction's nanoseconds are its digits times 10 to the 9, over 10 to their number, rounded down |
| Timestamps.ParseIsExact | dasher/internal/event/event.go:44-46 | a text parses to an instant if and only if it is a timestamp of that instant: fields in range, an optional fraction after a period or comma, Z or an offset, which is taken off |
| EnvelopeGrammar.PayloadIsExact | dasher/internal/event/event.go:88-96 | a payload decodes to a map if and only if the text starts with JSON for it, object or null |
| EnvelopeGrammar.ParseIsExact | dasher/internal/event/event.go:25-74 | an envelope parses to an event if and only if it carries it, field by field, by the grammars |
| EnvelopeGrammar.FirstComplaint | dasher/internal/event/event.go:25-74 | otherwise the error names the first field, in the code's order, that is not as it should be |
| Envelope.Parse | dasher/internal/event/event.go:25-74 | the field-by-field parser with early returns yields the event, or the first problem in field order; EnvelopeGrammar.ParseIsExact says which by the grammars |
| Envelope.Producer.Emit | dasher/internal/produce/produce.go:43-86 | nothing is appended after Close or when a payload does not marshal; otherwise at most one entry with the encoded fields, and nil exactly when the reply arrived |
| Envelope.HopRoundTrip | dasher/internal/produce/produce.go:50-86 | Parse after Emit succeeds if and only if the year and nesting are readable, and then gives op, table, schema, lsn, data, non-empty old and enrichment, the second and the emitter |
| Envelope.ParsedIsCarried | dasher/internal/event/event.go:25-74 | every parsed event can be emitted again and read, but for a UTC year outside 0 to 9999 |
| Envelope.ChainPreserves | dasher/internal/produce/produce.go:43-86 | a chain of hops of any length delivers what one hop delivers |
| RecencyList.List.Remove | dasher/internal/lookup/cache.go:70 | unlinks one node and keeps all neighbour pointers |
| RecencyList.List.PushFront | dasher/internal/lookup/cache.go:110 | puts a node in front and keeps all neighbour pointers |
| RecencyList.List.MoveToFront | dasher/internal/lookup/cache.go:74 | reorders the list to that node first |
| Cache.Cache.Get | dasher/internal/lookup/cache.go:61-76 | map and list together change as the entry sequence does: a hit moves to the front, an expired entry leaves |
| Cache.Cache.Set | dasher/internal/lookup/cache.go:80-112 | map and list together change as the entry sequence does: overwrite and move, or insert and evict the least recent |
| Cache.Cache.Len | dasher/internal/lookup/cache.go:116-120 | the number of entries, never more than the capacity |
| Cache.Cache.constructor | dasher/internal/lookup/cache.go:34-43 | an empty cache with the given or the default capacity |
| Recency.JitterIsExact | dasher/internal/lookup/cache.go:84-86 | the jitter is 15% of the TTL times a factor running from -1 to 1 with the random number, cut towards zero |
| Recency.GetMeans | dasher/internal/lookup/cache.go:61-76 | an unknown key misses and changes nothing, an expired one misses and leaves, any other is a hit and becomes the most recent; no other entry is touched |
| Recency.PutMeans | dasher/internal/lookup/cache.go:80-112 | the stored entry comes first, replaces the one of its key, and otherwise costs the last one if and only if there is no room |
| Recency.EffectiveTtlBound | dasher/internal/lookup/cache.go:84-89 | the effective TTL is positive and within 15% of the TTL; it is the jittered one, and the fallback to the plain one fires if and only if the sum overflows int64 |
| LruTrace.TraceSane | dasher/internal/lookup/cache.go:61-112 | after any run no key occurs twice and the capacity is kept |
| LruTrace.TraceHoldsLastStored | dasher/internal/lookup/cache.go:94-98 | whatever is held for a key is what was last stored under it |
| LruTrace.LruGuarantee | dasher/internal/lookup/cache.go:61-112 | after any run, a key touched before at most capacity - 1 other keys and not expired is a hit with its last stored value |
| CacheKey.MakeCacheKey | dasher/internal/lookup/cache.go:47-58 | the key depends on the map only, not on the order it is walked in |
| CacheKey.KeyReadsBack | dasher/internal/lookup/cache.go:47-58 | a readable key can be parsed back into its parameters |
| CacheKey.KeyInjective | dasher/internal/lookup/cache.go:47-58 | two readable binds of plain values with one key are equal |
| CacheKey.OneParameterInjective | dasher/internal/lookup/cache.go:47-58 | with a single fixed parameter no guard is needed |
| CacheKey.KeyInjectivityIsExact | dasher/internal/lookup/cache.go:54-56 | without the guard the key is injective on binds of plain values over a parameter set if and only if the set has at most one member |
| CacheKey.CompositesCollide | dasher/internal/lookup/cache.go:54-56 | on binds of any values it is injective over no parameter set but the empty one |
| CachedLookup.RunsSound | dasher/internal/lookup/cached.go:32-45 | in every interleaved run each entry is backed by the last Set under its key, with one row that the inner lookup returned |
| CachedLookup.BoundedStaleness | dasher/internal/lookup/cached.go:32-45 | rows served at t were returned by the inner lookup, and stored at s with 0 <= t - s <= 1.15 TTL, for the same bind when both are plain and readable |
| CachedLookup.WarmBindIsServed | dasher/internal/lookup/cached.go:32-45 | a stored row is served for 0.85 TTL, and serving it makes no inner call, while fewer than 1024 other keys are worked on |
| CachedLookup.CachedLookup.Resolve | dasher/internal/lookup/cached.go:32-45 | one call reads the cache, and on a miss asks the inner lookup once and caches a reply of one row |
| CachedLookup.MissIsARun | dasher/internal/lookup/cached.go:37-44 | an undisturbed miss is the two halves of the interleaved model in a row |
| CachedLookup.NewCachedLookup | dasher/internal/lookup/cached.go:19-28 | a TTL that is not positive leaves the lookup unwrapped |
| EmitGraph.Walk.Visit | dasher/internal/config/config.go:378-394 | the three-colour walk terminates; an error names a key on a cycle, and no error means that the chain from the key ends and visited keys stay so |
| EmitGraph.DetectEmitCycles | dasher/internal/config/config.go:358-405 | an error names a key on a cycle of the last-write-wins graph, and nil is returned if and only if there is none |
| EmitGraph.ChainEnds | dasher/internal/config/config.go:354-357 | without cycles a chain ends within as many hops as there are edges |
| EmitGraph.StartedOnConsumeKey | dasher/cmd/dasher/main.go:81 | the key a consumer is started on is the key the check reasons about |
| EmitGraph.SharedKeyIsTheName | dasher/internal/config/config.go:339-344 | the key of a shared stream is its name under every instance id |
| EmitGraph.InstanceKeysDiffer | dasher/internal/config/config.go:339-344 | the key of any other stream is the id, a dot and the name, and two instances share it only if their ids are equal |
| EmitGraph.EmitKeyIsTheName | dasher/internal/config/config.go:304-311 | an emit target is the raw stream name in every instance |
| EmitChains.OwnNameIsSelfIfShared | dasher/internal/config/config.go:304-311 | a binding that emits to its own stream name emits to itself if and only if the stream is shared |
| EmitChains.WholeKeyIsSelf | dasher/internal/config/config.go:304-311 | a binding on an instance stream emits to itself if and only if the target spells the whole key |
| EmitChains.Validate | dasher/internal/config/config.go:304-311 | the self-emit and cycle checks together accept if and only if no binding emits to itself and the graph has no cycle |
| EmitChains.RejectedLoops | dasher/internal/config/config.go:358-405 | what is rejected is a cycle of the graph of all bindings |
| EmitChains.ExactWhenDistinct | dasher/internal/config/config.go:358-405 | with distinct consume keys, accepted if and only if the graph of all bindings has no cycle |
| EmitChains.ExactnessOfTheCheck | dasher/internal/config/config.go:362-369 | the check is exact for all emit targets if and only if the emitting bindings consume pairwise distinct keys or all one key |
| EmitChains.EmissionChainsEnd | dasher/internal/config/config.go:354-405 | in an accepted instance with distinct keys each hop lowers a rank by one, and no rank exceeds the number of emitting keys |
| Gateway.GatewayClient.GetToken | dasher/internal/services/gateway.go:53-65 | a token good for more than 60 seconds is returned unchanged; otherwise one login, whose failure leaves token and expiry as they were |
| Gateway.GatewayClient.Authenticate | dasher/internal/services/gateway.go:68-112 | token and expiry change together, and only on a usable reply |
| Gateway.LoginRateBound | dasher/internal/services/gateway.go:53-112 | if issued tokens live at least L after their login, n successful logins span at least (n - 1)(L - 60s) |
| Gateway.ShortLivedNeverReused | dasher/internal/services/gateway.go:57-60 | tokens that expire within 60 seconds are never reused: each call logs in |
| Gateway.ServedTokenLives | dasher/internal/services/gateway.go:57-60 | a cached token that is served is that of the last login, has more than 60 seconds left, and serving it changes nothing |

## Left out

- The Redis, Postgres and HTTP clients: commands are atomic functions; lookups, handlers and logins answer as oracles.
- Two bindings on one consume key: the configuration allows them, and main then starts two consumers of one name on one stream; the protocol has one main loop a name.
- Handlers that change the event they get: events and cached rows are values here and shared Go maps in the source, so such a handler would change what is emitted and what the cache holds.
- Stream trimming, group creation at "$" and Redis version differences: entries stay, and the group starts at the cursor.
- When an idle consumer's clock is reset: XINFO's idle times are arbitrary in the protocol.
- A crash takes unanswered commands with it: a command either has happened or never will, once its process is gone.
- Protocol: a step of process takes no time of its own; time passes in separate steps between any two.
- Recovery.Recoverable: says nothing when an earlier pending entry is malformed or misses a bound column; under fail loud such an entry stops the process that meets it first.
- Consume.Consumer.RunLoop: fail loud only, and one process on the stream; the policy that returns nil and all interference are in the transition system. Its background loops are methods of their own that are not interleaved with it.
- Consume.Consumer.SelfReclaim: the clock stands still within one call; interference and time are in the transition system.
- Consume.Consumer.Process: a panic is a kind of handler reply; stack traces and log texts are not modelled.
- CacheKey.MakeCacheKey: a float is kept as its %v text.
- Lookups.Run: ParseFloat and the texts of errors are oracles or dropped.
- CachedLookup.CachedLookup.Resolve: the cached value is the reply with its one row; absolute times do not overflow.
- Recency.EffectiveTtlBound: reals stand for float64, so rounding of the jitter is not modelled.
- JsonText.CharsRoundTrip: strings are Unicode scalars; replacement of invalid UTF-8 is not modelled.
- JsonGrammar.ReaderIsExact: of a top-level number it asks that the text after it cannot continue it, since a shorter prefix is a number too; payloads are objects or null, where nothing is asked.
- JsonValue.ValueRoundTrip: lookup rows hold JSON values; driver-specific column types are not modelled.
- EndToEnd.AckedArrives: supposes that enrichments are JSON values within the nesting limit, and a UTC year in 0 to 9999.
- Gateway.GatewayClient.Authenticate: base64 and JSON decoding of the token are an oracle for its exp claim.
- YAML and environment reading, single-field validation, logging, the handler registry, HTTP forwarding and service construction: one-branch facts.
- Emit cycles across instances: a process never sees the configuration of another one.
