# Verification of the service's messaging, caching and concurrency core

A Dafny model of the parts of go-mongo-boilerplate whose correctness spans several calls: the
retry and dead-letter protocol on Kafka and SQS, the feature-marker stripper of the project
initialiser, the rate limiter's store, cursor pagination, the breaker registry, the span tracker of
the Mongo command monitor, and the readiness registry. `dafny verify dfyconfig.toml` checks all of it.

## How the model is organised

* **The protocol.** `Protocol` is one abstract machine over three queues: copies are published,
  handled, republished and redelivered in any interleaving, with any failures. `KafkaCluster` and
  `SqsBroker` are the concrete systems: a broker's state, a type of steps (a message is published, a
  consumer's publish lands with or without its acknowledgement, a handler succeeds, a poll returns a
  batch, a batch's first records are committed, a message is deleted), each with its own guard, and
  runs of steps (`Steps`). By induction over steps they prove what every run keeps and that it simulates
  the abstract machine. `KafkaClient.Cluster` and `SqsClient.Broker` are the environment: each method
  takes at most one step. `KafkaConsumer` and `SqsConsumer` are the consumers' code on top, with
  interference of other consumers, producers and brokers at every point where the code waits.
  Every method is proved to be a run of steps, so the theorems in `KafkaGuarantees` and
  `SqsGuarantees`, which speak of all runs from an empty broker, hold of every interleaving of any
  number of both consumers.
* **Headers and attributes.** `Headers`, `KafkaHeaders`, `KafkaRecord`, `SqsAttributes` and
  `SqsMessage` follow the bytes: sanitizing, option building and publishing over ordered header lists
  with case-insensitive reads, and over attribute maps where a read may return the value of any
  spelling. `Routing` and `Backoff` are the pure parts. `GoStrings` has the library functions whose
  details matter (case folding, suffix trimming, decimal printing and parsing, 64-bit wrap-around).
  `KafkaSpellings` has the keys for which lower-casing and folding differ.
* **The rest.** `TextLines` and `Stripper` (line loop, newline collapsing, the sweep), `StripPipeline`
  and `StripShapes` (the passes one after another, and which lines they can deal with), `RateLimit` and
  `RateLimitRuns` (the store on the heap; whole request histories on its specification), `Pagination`,
  `Breaker` and `SpanTracker` (concurrent protocols as step machines with history variables), `Health`.

## Where the code differs from its own description

The model follows the code. Each difference is stated by the lemmas named with it.

* **The retry budget.** README.md:287 and the comments (internal/platform/kafka/consumer.go:54-55,
  internal/platform/sqs/consumer.go:51) promise the DLQ after `MaxRetries`. Sanitizing removes
  `x-retry-count` before it is bumped (internal/platform/kafka/consumer.go:184-192,
  internal/platform/sqs/consumer.go:243-255), so every copy in the retry queue counts one. A message
  can be dead-lettered for exhausting its budget exactly when the budget is one, or the message was
  published with a counter that reaches it (`KafkaGuarantees.ExhaustionIff`; on SQS it must also be
  within the attribute budget, `SqsGuarantees.ExhaustionIff`). The second case is a counter set by
  whoever published the message, which README.md:297 says cannot tamper with retries: it is stripped
  on republish, but read before that. Otherwise, with a budget of two or more, a message can
  circulate for ever (`RetriesUnbounded`), and the backoff of a returned message is twice its base.
  The documented bound is proved for the variant `IncrementSource`, along one line of descent
  (`BudgetBoundsRetries`): a publish that lands without its acknowledgement is repeated, so the number
  of copies of one message in the retry queue has no bound under either rule (`EntriesUnbounded`).
* **Spellings with a long s.** Sanitizing compares lower-cased keys, writing compares case-folded
  ones. U+017F folds to `s` but does not lower-case to it, so a header spelled that way survives
  sanitizing and may then be overwritten by the error reason or by an injected `tracestate`.
  `KafkaSpellings.HopKeepsByLowerIff` says exactly when: a case variant such as `Tracestate` in front
  of the spelling takes the write instead (`VariantShieldsSpelling`). `KafkaHeaders.HopKeeps` avoids
  the question: there a header is the application's when no platform name folds to its key. Baggage
  is counted among the platform names because the propagator may write it.
* **The SQS attribute budget.** A first publish accepts seven custom attributes, a republish adds a
  counter or a reason to the same budget, so a message of which seven pass sanitizing can never be
  republished (`BudgetIff`, `CanMoveIff`): until it is handled it stays on the main queue and is
  delivered again (`OverBudgetStays`). Six are enough unless one of them is another spelling of
  `baggage` and none is exactly that: the retry consumer publishes under the message's own baggage, which the propagator
  writes under the exact name, and the attributes grow by one (`StableIff`, `BaggageBreaksBudget`,
  `WithinLimitIff`). Attributes without a string value are dropped and numbers come back as strings
  (`TypesSurviveIff`).
* **The retry consumers.** The comment on Kafka's says that a failed move is simply not committed; the
  code republishes the record to the retry topic through the nested `Consume`, and cuts at the
  default of 65536 bytes whatever limit is configured (`RetryConsumerRepublishes`,
  internal/platform/kafka/consumer.go:262-269). The comment on SQS's speaks of `MaxRetries=0`, which
  the code does not set, and which `SqsBroker.WithDefaults` would replace; the nil producer is what
  disables nested retries (`SqsConsumer.Republish`).
* **Re-fetching.** "Don't commit, re-fetch next iteration" (internal/platform/kafka/consumer.go:56) is
  a fact about the client library, not about this code. It is the guard of the step `Poll`.
  `PollSafeIff` gives the exact condition that commit safety needs of a poll, and
  `SkippingPollLosesARecord` a reachable state in which a poll without it leads to a loss.
* **Backoff.** The 64-bit product wraps for bases from 2^47 ns on (`DelayExactIff`, `WrappedDelay`), and
  an SQS backoff below a second is sent as no delay (`SubSecondDelayLost`).
* **Jitter.** The comment says ±20%; the code draws from -10% to +10%, and panics for timeouts of 1 to
  4 ns (`JitterRange`).
* **Readiness.** `ConsecutiveFails` is documented as failure cycles. Two checkers under one name feed
  one counter twice a cycle (`CountsCyclesIff`).
* **The limiter's TTL.** internal/middleware/rate_limit.go:23-24 says that it evicts cold keys. Only a
  miss evicts: a key that comes back before the next miss gets its old limiter however long it was
  away (`RetentionIff`).
* **Request ids.** The span tracker is keyed by request ids. A span is lost exactly when a store
  overwrites an entry that the janitor does not have in hand, or the janitor's deletion by key removes
  an entry other than the one it has in hand (`LossIff`). Neither happens when each id is free at the
  start of its command: not in the map, not in the janitor's hand and not about to be stored
  (`NoSpanLost`), as ids that are never used twice are (`UniqueIdsAreFree`). An id that is reused while
  its first command runs breaks that (`ReuseLosesASpan`), and so does one reused after its command
  finished, while the janitor still holds the old entry (`SweepLosesASpan`).
* **The zero id.** A zero cursor filters nothing, so with a limit of one a first user whose id is zero
  is fetched for ever. Every other walk over a fixed collection is right (`FixedWalkIff`). The service
  does not write such a user: internal/user/model.go:13 omits an empty id, and the driver assigns
  one. It could only come from documents written by other programs.
* **Several markers on a line.** A strip removes the whole lines of its markers, so other markers on
  them go too. Unless a stripped feature is named twice on the line, that is right for every well-nested
  file exactly when the line names at most one of the stripped features, or only opens or only closes
  several and the outermost of them is stripped first (`LineIff`, `TwoMarks`). A line with both markers of one feature does only one of the two
  (`BothMarkersIff`, `OneLineBlockFails`).

## Model

| member | source | states |
|---|---|---|
| Protocol.ReachesKeepsInv | internal/platform/kafka/consumer.go:51-170 | every run of the abstract machine keeps: each copy descends from one original and carries its identity, headers and body, the DLQ is never drained, and every original was handled or has a live unsettled copy |
| Protocol.NoLoss | internal/platform/sqs/consumer.go:48-57 | in every reachable state of the abstract protocol an unhandled original has a live copy that carries it |
| Protocol.ExhaustedOnlyIf | internal/platform/kafka/consumer.go:184-192 | with the code's counter rule, in every run, a copy is dead-lettered for its budget only if the budget is one or its original was published with a counter that reaches it; every retry copy counts one |
| Protocol.RetriesUnbounded | internal/platform/kafka/consumer.go:184-192 | with a budget of two or more, for every n some run moves its one message into the retry queue n times |
| Protocol.ExhaustionNeedsBudgetOne | internal/platform/kafka/consumer.go:184-192 | on originals without a counter some run exhausts the budget if and only if it is one |
| Protocol.BudgetBoundsRetries | internal/platform/kafka/consumer.go:54-55 | on the variant that increments the source's count (and for a budget of one), every copy in any run has at most maxRetries moves to the retry queue on its line of descent |
| Protocol.EntriesUnbounded | internal/platform/kafka/consumer.go:205-219 | that bound is not one on all copies: for every n some run, under either rule, leaves n retry copies of one message, by publishes that land without an acknowledgement |
| Headers.SanitizeError | internal/platform/kafka/headers.go:131-152 | the builder loop yields printable ASCII of at most 256 characters, equal to the cut and replaced text, "unknown" for nil |
| Headers.ReasonExact | internal/platform/kafka/headers.go:131-152 | character by character: the first 256, with everything outside codes 32 to 127 replaced by a question mark |
| Headers.ErrorReasonIdempotent | internal/platform/sqs/headers.go:185-206 | a sanitized reason is unchanged by sanitizing it again |
| Headers.ParsePrinted | internal/platform/kafka/headers.go:87-105 | decimal round trip: a printed counter is read back as itself over the whole int64 range |
| Headers.CountIff | internal/platform/kafka/headers.go:87-98 | a header value counts exactly when it is a positive number, and then as that number |
| Headers.TraceparentIff | internal/platform/kafka/headers.go:29-31 | the grammar accepts exactly four lower-case hexadecimal fields of 2, 32, 16 and 2 digits, joined by hyphens |
| Headers.SurvivesIff | internal/platform/kafka/headers.go:114-127 | sanitizing drops exactly the counter, the reason and the malformed traceparents, in any case of their letters |
| Headers.AppKeyIff | internal/platform/kafka/headers.go:18-27 | the application's keys are those that fold to none of the six names |
| GoStrings.AtoiIff | internal/platform/kafka/headers.go:92-96 | what parses: digits behind an optional sign, within 64 bits |
| GoStrings.ValueConcat | internal/platform/kafka/headers.go:103-103 | numerals are positional in base ten |
| GoStrings.LettersOf | internal/platform/kafka/headers.go:35-38 | which characters fold to a lower-case ASCII letter and which lower-case to it |
| Headers.OneNamePerKey | internal/platform/kafka/headers.go:35-52 | a key case-folds to at most one platform name, so writing one platform header never overwrites another |
| Headers.StrippedKeys | internal/platform/kafka/headers.go:116-125 | lower-casing and folding agree on the counter and traceparent names; on the error reason only one way |
| KafkaRecord.Record.Set | internal/platform/kafka/headers.go:44-52 | the in-place loop overwrites the first header that folds to the key, or appends one |
| KafkaRecord.Record.SetIdempotencyKey | internal/platform/kafka/headers.go:72-80 | the key written is the given one, or a fresh non-empty one |
| KafkaRecord.Record.IncRetryCount | internal/platform/kafka/headers.go:100-105 | writes the parsed count plus one, wrapping at 64 bits, under the first matching header |
| KafkaRecord.Record.InjectTraceHeaders | internal/platform/kafka/headers.go:62-65 | the propagator's writes, each through the carrier's overwrite-or-append |
| KafkaRecord.Get | internal/platform/kafka/headers.go:35-42 | the loop returns the value of the first case-insensitive match |
| KafkaRecord.SanitizeForRepublish | internal/platform/kafka/headers.go:107-129 | the loop keeps, in order, exactly the headers that are no counter, no reason and no malformed traceparent |
| KafkaHeaders.GetAfterSet | internal/platform/kafka/headers.go:35-52 | what is written under a name is what is read under it |
| KafkaHeaders.GetAfterOtherSet | internal/platform/kafka/headers.go:35-52 | writing one name leaves every read under a name it does not fold to |
| KafkaHeaders.FirstMatch | internal/platform/kafka/headers.go:35-52 | reading and writing are about the first header that folds to the key; without one the read is empty and the write appends |
| KafkaHeaders.CountReads | internal/platform/kafka/headers.go:87-98 | a printed counter under the counter's name is the count |
| KafkaHeaders.AppAfterPublish | internal/platform/kafka/producer.go:64-92 | option building and publishing keep the ordered application headers, whatever UUID and trace headers are added |
| KafkaHeaders.KeyAfterPublish | internal/platform/kafka/consumer.go:194-203 | a non-empty idempotency key survives option building and publishing, an empty one becomes the UUID |
| KafkaHeaders.HopKeeps | internal/platform/kafka/consumer.go:180-220 | for any header list and any kind of hop: application headers unchanged in order, identity kept, the counter 1 on the way to retry and unchanged on the way back, the handler error's sanitized text on the way to the DLQ |
| KafkaHeaders.OtherLengthsStay | internal/platform/kafka/consumer.go:198-203 | headers whose keys have other lengths than the six names stay through any hop, in order |
| KafkaHeaders.TraceIsNew | internal/platform/kafka/consumer.go:198-201 | a trace header sent under its exact name is one that the propagator wrote, never the source's |
| KafkaHeaders.HopsKeep | internal/platform/kafka/consumer.go:180-260 | the same over any number of hops |
| KafkaHeaders.BaggageAfterHop | internal/platform/kafka/headers.go:62-65 | the baggage over any hop, which is counted with the platform's headers: reading it gives the last value injected, or what it gave before, and without an injected one all its spellings stay in order |
| KafkaSpellings.HopKeepsByLowerIff | internal/platform/kafka/headers.go:110-129 | with platform keys recognised by lower-casing, every hop (any move, UUID and injection) keeps the application headers if and only if no key is a long-s spelling of the error reason and the first forwarded header that folds to tracestate, if any, lower-cases to it |
| KafkaSpellings.ReasonOverwritesLongS | internal/platform/kafka/headers.go:116-119 | a header that survives sanitizing and is overwritten by the error reason |
| KafkaSpellings.StateOverwritesLongS | internal/platform/kafka/headers.go:44-52 | a header that survives sanitizing and is overwritten by an injected tracestate |
| KafkaSpellings.VariantShieldsSpelling | internal/platform/kafka/headers.go:44-52 | a header list with such a spelling that every hop keeps, because a case variant comes first |
| KafkaSpellings.DlqKeepsByLower | internal/platform/kafka/headers.go:116-126 | under that reading, DLQ preparation alone keeps all application headers for every error if and only if no key is a long-s spelling of the error reason |
| Routing.SameRouteOnBothBrokers | internal/platform/sqs/routing.go:23-39 | the two routing decisions agree on all inputs: nil commits, a cancelled handler drops, and of the other errors exactly the final ones and those at the budget go to the DLQ |
| Routing.TopicsDistinct | internal/platform/kafka/consumer.go:172-178 | the three topics differ if and only if the main topic does not end in the retry suffix and the suffixes are non-empty and distinct |
| Routing.TopicsClosed | internal/platform/kafka/consumer.go:172-178 | the retry topic and the DLQ are the main topic with their suffix, from the main and from the retry topic alike, and trimming leads back to the main topic |
| Routing.QueuesClosed | internal/platform/sqs/consumer.go:219-233 | the same for queue URLs, with the way back trimming the suffix off the whole URL (internal/platform/sqs/consumer_retry.go:26-27) |
| Routing.NoPathNoSuffix | internal/platform/sqs/consumer.go:223-226 | a URL without a slash is its own destination |
| Routing.SuffixedQueueRetriesIntoItself | internal/platform/sqs/consumer.go:222-233 | a queue is its own retry destination if and only if its name ends in the retry suffix or the suffix is empty |
| Backoff.DelayExact | internal/platform/sqs/backoff.go:15-31 | for bases below 2^47 ns both delays are the base doubled as often as the count says, from none to sixteen times, up to the cap, and 900 s on SQS |
| Backoff.DelayMonotone | internal/platform/kafka/consumer.go:272-281 | both delays are monotone in the retry count |
| Backoff.DelayExactIff | internal/platform/kafka/consumer.go:276-280 | for every positive int64 base the result is that capped doubling if and only if it fits, or wraps to a non-positive value or to at least the cap |
| Backoff.WrappedDelay | internal/platform/kafka/consumer.go:276-280 | a base for which the wrapped delay is shorter than the base |
| Backoff.SentDelay | internal/platform/sqs/producer.go:110-116 | through republish, WithDelay and Publish the request waits the floor of the backoff in seconds, within 0 to 900 |
| Backoff.SubSecondDelayLost | internal/platform/sqs/producer.go:110-116 | the request waits zero seconds if and only if the capped exponential is below a second |
| KafkaCluster.PublishFollows | internal/platform/kafka/consumer.go:180-269 | every record that either consumer may publish is a move the abstract protocol allows: topic, identity, headers, value cut, counter and reason |
| KafkaCluster.StepKeepsInv | internal/platform/kafka/consumer.go:78-169 | every step keeps: known topics, no committed offset past an unsettled record, and in every batch handed out nothing skipped but settled records; logs only grow |
| KafkaCluster.PolledIsOk | internal/platform/kafka/consumer.go:82-82 | in a state with safe commits, a poll that resumes at the committed offset skips nothing but settled records |
| KafkaCluster.BatchStaysOk | internal/platform/kafka/consumer.go:99-162 | that stays true of the batch whatever is appended meanwhile |
| KafkaCluster.PrefixIsSafe | internal/platform/kafka/consumer.go:99-168 | a settled prefix of such a batch has nothing unsettled below it in any partition |
| KafkaCluster.StepSimulates | internal/platform/kafka/producer.go:94-99 | every step, such as a send that lands acknowledged or not, is a run of at most one step of the abstract protocol |
| KafkaCluster.RunSimulates | internal/platform/kafka/consumer.go:57-170 | by induction over its steps, every run keeps the invariant and has an abstract run behind it |
| KafkaCluster.CommitKeepsSafe | internal/platform/kafka/consumer.go:164-168 | a commit of records up to which everything is settled keeps commit safety |
| KafkaCluster.WithDefaults | internal/platform/kafka/consumer.go:62-73 | which settings are kept, and the defaults of the others |
| KafkaClient.Cluster.ProduceSync | internal/platform/kafka/producer.go:94-100 | the environment's send, at most one step: an acknowledged record is in the log and its source is settled; a failed one may have landed |
| KafkaClient.Cluster.Poll | internal/platform/kafka/consumer.go:82-82 | the environment's poll, one step: records as logged, resuming at the committed offset (assumption) |
| KafkaClient.Cluster.CommitRecords | internal/platform/kafka/consumer.go:164-168 | the environment's commit of the first records of a polled batch, at most one step: takes effect when it reports success, may when it does not |
| KafkaConsumer.PublishConfig.Apply | internal/platform/kafka/producer.go:31-47 | an option appends its header or replaces the identity, and nothing else |
| KafkaConsumer.BuildOpts | internal/platform/kafka/consumer.go:194-203 | the loop's options carry exactly the forwarded headers in order and the identity that was read |
| KafkaConsumer.BuildRecord | internal/platform/kafka/producer.go:64-92 | the record handed to the client is key, value, the options' headers, the identity and the trace headers |
| KafkaConsumer.Publish | internal/platform/kafka/producer.go:64-101 | an acknowledged publish put the moved copy into the topic and settled its source |
| KafkaConsumer.BuildRepublish | internal/platform/kafka/consumer.go:184-203 | the copy that is republished: key, value or its cut, and the options of the prepared headers |
| KafkaConsumer.Attempts | internal/platform/kafka/consumer.go:205-219 | three publishes under interference, fewer only when one is acknowledged or the context ends; an acknowledged one delivered the copy and settled the source |
| KafkaConsumer.Republish | internal/platform/kafka/consumer.go:180-220 | these attempts with the sanitized, counted or cut copy; no producer means an error and no attempt |
| KafkaConsumer.MoveBack | internal/platform/kafka/consumer.go:232-259 | the retry consumer's closure: nothing when cancelled, else one publish of the record to the main topic with the counter it read |
| KafkaConsumer.Handle | internal/platform/kafka/consumer.go:115-118 | a nil result settles the record: the application handled it, or the retry consumer's closure delivered it to the main topic |
| KafkaConsumer.ProcessRecord | internal/platform/kafka/consumer.go:115-158 | for a handler error that is not cancelled, an acknowledged republish puts the copy in the DLQ, cut and with the error, exactly when the error is non-retryable or the counter reaches the budget, and in the retry topic otherwise; the record is left only behind a cancelled handler or a republish that was given up |
| KafkaConsumer.ConsumeBatch | internal/platform/kafka/consumer.go:99-162 | the committable list is exactly the prefix before the first record left, each one settled and with such an outcome; processing stops early only behind a cancelled handler or a republish that was given up |
| KafkaConsumer.ConsumeOnce | internal/platform/kafka/consumer.go:78-169 | one turn: poll, process, commit exactly the committable prefix or nothing, all within the protocol |
| KafkaConsumer.Consume | internal/platform/kafka/consumer.go:57-170 | for any number of turns, each is such a turn, the next polls a state that a run led to from it, and the whole is a run of steps |
| KafkaConsumer.ConsumeRetry | internal/platform/kafka/consumer.go:222-270 | the retry consumer is the same loop on the retry topic with the nested configuration |
| KafkaGuarantees.RefinesProtocol | internal/platform/kafka/consumer.go:57-270 | every state that a run of concrete steps leads to from an empty cluster keeps the invariant and abstracts to a reachable state of the protocol |
| KafkaGuarantees.NoLoss | internal/platform/kafka/consumer.go:51-57 | in every reachable state each original was handled, or a deliverable record carries its headers, identity and value (a prefix in the DLQ) |
| KafkaGuarantees.NothingInvented | internal/platform/kafka/consumer.go:180-203 | every record in the three topics descends from one original and carries it, and there are no other topics |
| KafkaGuarantees.CommittedIsSettled | internal/platform/kafka/consumer.go:99-168 | in no run of concrete steps does a committed offset pass a record without a nil handler result or an acknowledged republish |
| KafkaGuarantees.PollSafeIff | internal/platform/kafka/consumer.go:56-56 | from every reachable state, whatever runs follow a poll, committing the finished first records of its batch is safe if and only if each record between the committed offset and a polled one is earlier in the batch or settled |
| KafkaGuarantees.CommitSafeIff | internal/platform/kafka/consumer.go:164-168 | a single commit keeps commit safety if and only if everything up to each committed record is settled |
| KafkaGuarantees.SkippingPollLosesARecord | internal/platform/kafka/consumer.go:56-56 | a reachable state and a batch that does not resume at the committed offset, whose commit passes a failed record |
| KafkaGuarantees.ExhaustedOnlyIf | internal/platform/kafka/consumer.go:184-192 | in every run a record is dead-lettered for its budget only if the budget is one or its original was published with a counter that reaches it |
| KafkaGuarantees.ExhaustionIff | internal/platform/kafka/consumer.go:120-121 | from every reachable state a message may still be dead-lettered for its budget if and only if the budget is one or the message was published with a counter that reaches it |
| KafkaGuarantees.RetryConsumerRepublishes | internal/platform/kafka/consumer.go:262-269 | a failed move of the retry consumer goes back to the retry topic, with the counter at one, if and only if it is transient and the counter below 2^31 - 1; its DLQ cut is 65536 |
| KafkaGuarantees.CountAfterRounds | internal/platform/kafka/consumer.go:184-192 | after any positive number of rounds through the retry topic the counter is one, whatever it was |
| KafkaGuarantees.ExhaustsIffOne | internal/platform/kafka/consumer.go:120-121 | a failing record without a counter ever reaches the DLQ by its count if and only if the budget is one |
| KafkaGuarantees.IncrementSourceCounts | internal/platform/kafka/consumer.go:190-191 | on the variant that increments the source's count the counter is the number of rounds |
| KafkaGuarantees.IncrementSourceExhausts | internal/platform/kafka/consumer.go:54-55 | on that variant a failing record is dead-lettered if and only if it went through maxRetries rounds |
| KafkaGuarantees.RetryDelayIsConstant | internal/platform/kafka/consumer.go:233-234 | the retry consumer's delay is min(max, 2 * base) for every record a consumer sent it |
| SqsMessage.GetStringAttribute | internal/platform/sqs/headers.go:103-116 | the range over the map returns the value of some spelling of the name, "" only when there is none |
| SqsMessage.SanitizeForRepublish | internal/platform/sqs/headers.go:165-183 | a fresh map with exactly the surviving attributes |
| SqsMessage.AttrMap.IncRetryCount | internal/platform/sqs/headers.go:151-163 | writes a count that was read plus one under the exact name |
| SqsMessage.AttrMap.InjectTraceHeaders | internal/platform/sqs/headers.go:82-85 | the propagator's attributes over the map in place |
| SqsAttributes.AppAfterMove | internal/platform/sqs/consumer.go:243-271 | any hop keeps the application's string attributes exactly |
| SqsAttributes.HopKeeps | internal/platform/sqs/consumer.go:235-296 | any hop: string attributes and a non-empty identity without case variants kept, the counter one to retry, as read on the way back |
| SqsAttributes.KeptIff | internal/platform/sqs/headers.go:165-183 | sanitizing drops exactly the counter, the reason and the malformed or non-string traceparents, in any case of their letters |
| SqsAttributes.MarkersSent | internal/platform/sqs/consumer.go:243-258 | what a move sends under the marker's name and the identity's: the handler error's sanitized text to the DLQ, the counter otherwise |
| SqsAttributes.TraceIsNew | internal/platform/sqs/consumer.go:263-266 | a trace attribute sent under its exact name is the propagator's, never the source's |
| SqsAttributes.TypesSurviveIff | internal/platform/sqs/consumer.go:263-270 | application attributes keep their type if and only if each is a String with a value |
| SqsAttributes.BudgetIff | internal/platform/sqs/producer.go:76-78 | for any attributes, every republish passes the publish check if and only if at most six attributes pass, one fewer than a first publish may have |
| SqsAttributes.PassingAfterMove | internal/platform/sqs/producer.go:80-84 | for any attributes, a hop changes the set of those that pass by an injected baggage alone |
| SqsAttributes.WithinLimitIff | internal/platform/sqs/headers.go:33-40 | of the messages that pass the check, every hop is sent with at most ten attributes if and only if no passing attribute is a spelling of baggage, or one has exactly that name, or there is room for one more |
| SqsBroker.DefaultsIdempotent | internal/platform/sqs/consumer.go:188-217 | filling in defaults twice, as the retry consumer does, is filling them in once |
| SqsBroker.WithDefaults | internal/platform/sqs/consumer.go:188-217 | which settings are kept, and the defaults of the others |
| SqsBroker.DelayIs | internal/platform/sqs/consumer.go:273-279 | only a move to the retry queue waits: the capped doubling of the base for the counter, in whole seconds |
| SqsBroker.SendFollows | internal/platform/sqs/consumer.go:238-296 | every message that either consumer may send is a move the abstract protocol allows |
| SqsBroker.StepKeepsInv | internal/platform/sqs/consumer.go:58-167 | every step keeps the queues' invariant, and history only grows |
| SqsBroker.StepSimulates | internal/platform/sqs/producer.go:118-123 | every step, such as a send that lands acknowledged or not or a deletion of a settled message, is a run of at most one step of the abstract protocol |
| SqsBroker.RunSimulates | internal/platform/sqs/consumer.go:58-101 | by induction over its steps, every run keeps the invariant and has an abstract run behind it |
| SqsClient.Broker.SendMessage | internal/platform/sqs/producer.go:118-123 | the environment's send, at most one step: an acknowledged message is stored and its source settled; a failed one may be stored |
| SqsClient.Broker.DeleteMessage | internal/platform/sqs/consumer.go:173-178 | the environment's delete of a settled message, at most one step: whatever it reports, the message is gone or nothing changed |
| SqsConsumer.PublishConfig.Apply | internal/platform/sqs/producer.go:35-62 | an option changes its own setting and nothing else |
| SqsConsumer.BuildAttrs | internal/platform/sqs/producer.go:80-103 | the loop's map is the custom attributes, then the identity, then the trace attributes |
| SqsConsumer.RequestDelay | internal/platform/sqs/producer.go:110-116 | the request's delay in whole seconds |
| SqsConsumer.Publish | internal/platform/sqs/producer.go:71-128 | more than seven custom attributes are refused and nothing is sent; otherwise one send, and success means that the planned message stands in the queue and its source is settled |
| SqsConsumer.BuildRepublish | internal/platform/sqs/consumer.go:243-279 | body cut, attributes, identity and delay of a republish, from the source message |
| SqsConsumer.Attempts | internal/platform/sqs/consumer.go:281-296 | three publishes under interference, fewer only when one is acknowledged or the context ends; an acknowledged one delivered the message and settled the source |
| SqsConsumer.Republish | internal/platform/sqs/consumer.go:235-296 | these attempts with the planned message; without a producer, or over the attribute budget, an error and nothing sent |
| SqsConsumer.MoveBack | internal/platform/sqs/consumer_retry.go:29-53 | the retry consumer's closure delivers the message to the main queue with the count it read |
| SqsConsumer.Handle | internal/platform/sqs/consumer.go:129-129 | a nil result settles the message |
| SqsConsumer.DeleteMessage | internal/platform/sqs/consumer.go:169-179 | nothing is deleted without a receipt handle, and nothing but the message with it |
| SqsConsumer.ProcessMessage | internal/platform/sqs/consumer.go:105-167 | for a handler error that is not cancelled, an acknowledged republish puts the copy in the DLQ exactly when the error is non-retryable or the counter that was read reaches the budget, and in the retry queue otherwise; a deletion is asked for exactly after that or a nil result; the message is left alone only behind a cancelled handler or a republish that was given up |
| SqsConsumer.ConsumeBatch | internal/platform/sqs/consumer.go:94-99 | the messages of a receive are processed in order, all of them unless the context ends |
| SqsConsumer.Consume | internal/platform/sqs/consumer.go:58-101 | for any number of receives, every processed message has such an outcome and the whole is a run of steps |
| SqsConsumer.ConsumeRetry | internal/platform/sqs/consumer_retry.go:22-68 | the same for the retry queue without a nested producer |
| SqsGuarantees.RefinesProtocol | internal/platform/sqs/routing.go:23-25 | every state that a run of concrete steps leads to from empty queues keeps the invariant and abstracts to a reachable state of the same protocol as Kafka's |
| SqsGuarantees.NoLoss | internal/platform/sqs/consumer.go:140-166 | in every reachable state each original was handled, or a live message carries its attributes, identity and body (the prefix of DLQMaxPayloadBytes in the DLQ) |
| SqsGuarantees.NothingInvented | internal/platform/sqs/consumer.go:238-296 | every message in the three queues descends from one original and carries it |
| SqsGuarantees.DeadLettersStay | internal/platform/sqs/consumer.go:148-166 | a message in the DLQ is never settled or deleted |
| SqsGuarantees.ExhaustedOnlyIf | internal/platform/sqs/consumer.go:243-255 | in every run a message is dead-lettered for its budget only if the budget is one or some read of its original's counter returned the budget or more |
| SqsGuarantees.ExhaustionIff | internal/platform/sqs/routing.go:23-39 | from every reachable state a message may still be dead-lettered for its budget if and only if it is within the attribute budget, and the retry budget is one or some read of the counter it was published with returns that much |
| SqsGuarantees.LaterDelayIsConstant | internal/platform/sqs/consumer.go:273-279 | every retry after the first waits twice the base, up to the cap |
| SqsGuarantees.OverBudgetStays | internal/platform/sqs/consumer.go:148-155 | in every run a message over the attribute budget has no other copy, and until it is handled it is live and unsettled on the main queue |
| SqsGuarantees.CanMoveIff | internal/platform/sqs/producer.go:76-78 | in every reachable state a message on the main or retry queue can be published on if and only if it is within the attribute budget |
| SqsGuarantees.BudgetOverHops | internal/platform/sqs/producer.go:76-84 | after any number of hops, for any attributes, the next republish passes the check if and only if at most six attributes pass, an injected baggage included |
| SqsGuarantees.StableIff | internal/platform/sqs/consumer_retry.go:29-53 | what passes never changes over hops if and only if no passing attribute is a spelling of baggage or one has exactly that name |
| SqsGuarantees.BaggageBreaksBudget | internal/platform/sqs/consumer_retry.go:39-53 | with six passing attributes that fail this condition, a round through the retry queue with the baggage injected puts every further republish over the limit |
| SqsGuarantees.SixWithBaggage | internal/platform/observability/otel.go:86-89 | any five application attributes and one named Baggage make such a message |
| TextLines.LinesEnd | cmd/init/stripper.go:36-54 | lines end at newline characters, and at the end of the text |
| TextLines.BlankIff | cmd/init/stripper.go:62-62 | a line is blank when it is all Unicode white space |
| TextLines.RejoinAll | cmd/init/stripper.go:82-87 | splitting a file into lines and writing all of them back gives the file |
| TextLines.RejoinEnds | cmd/init/stripper.go:84-87 | what is written back ends with a newline exactly when the input did |
| TextLines.NonBlankOfRejoin | cmd/init/stripper.go:42-48 | writing lines back keeps the non-blank ones, whatever the final newline |
| TextLines.CollapseBlankRuns | cmd/init/stripper.go:155-173 | the byte loop computes the collapse function |
| TextLines.CollapseRun | cmd/init/stripper.go:155-173 | each maximal run of newline characters is cut to two, independently of what is around it |
| TextLines.CollapseKeepsText | cmd/init/stripper.go:166-170 | text without newlines is unchanged |
| TextLines.CollapseIdentityIff | cmd/init/stripper.go:155-173 | idempotent, never three newlines in a row, and the identity if and only if there were none |
| Stripper.StripLines | cmd/init/stripper.go:41-74 | the line loop writes exactly the lines outside every block that are no blank directly before an opening marker, and reports where an unclosed block was opened |
| Stripper.StripFeature | cmd/init/stripper.go:15-98 | the whole pass on a file's contents, with the line of an unclosed block |
| Stripper.OneBlockFile | cmd/init/stripper.go:30-91 | a file with one block, in the words of its markers: what is left is exactly the lines before and behind it, less a blank one directly before it, with newlines collapsed |
| Stripper.OpenBlockFile | cmd/init/stripper.go:78-80 | without the end marker it is reported as unclosed, at the line of its start marker |
| Stripper.StripOnNonBlank | cmd/init/stripper.go:50-91 | on the non-blank lines a pass removes the blocks and nothing else, and fails if and only if the last block is open |
| Stripper.NoMarkerOnlyCollapses | cmd/init/stripper.go:50-91 | without an opening marker a pass is the newline collapse |
| Stripper.StripIdempotent | cmd/init/stripper.go:15-21 | stripping a feature twice is stripping it once |
| Stripper.ResidualIff | cmd/init/stripper.go:13-13 | the residual expression matches if and only if some feature's start or end token occurs |
| Stripper.ResidualText | cmd/init/stripper.go:13-13 | the same in the words of the markers: letters, digits, underscore and hyphen between feature: and :start or :end |
| Stripper.SweepLines | cmd/init/stripper.go:124-135 | the loop writes exactly the lines without a marker |
| Stripper.SweepFile | cmd/init/stripper.go:117-147 | the sweep of one file: unchanged when the expression does not match, and otherwise without its marker lines, with the final newline as it was |
| Stripper.SweepOnNonBlank | cmd/init/stripper.go:121-147 | the sweep keeps exactly the non-blank lines without a marker, including when it returns early |
| StripPipeline.StripNested | cmd/init/stripper.go:50-73 | one pass closes its block, leaves the markers of the further features well nested, and what remains for these is what remained for all of them |
| StripPipeline.StripSelected | cmd/init/main.go:73-86 | the loop over the chosen features, stopping at an unclosed block |
| StripPipeline.PassesNested | cmd/init/main.go:72-86 | the passes over the chosen features one after another, on lines: no unclosed block is reported, and the unmarked lines left are those outside every stripped block |
| StripPipeline.PipelineMeaning | cmd/init/stripper.go:50-80 | when the stripped features' markers are well nested and every line is harmless (it names none of them, or it only opens or only closes some and the outermost is stripped first), stripping and sweeping leaves exactly the non-blank unmarked lines outside every stripped block |
| StripPipeline.OneMarkIsHarmless | cmd/init/stripper.go:57-69 | a line with at most one marker of a stripped feature is harmless, whatever else it carries |
| StripPipeline.FewerNested | cmd/init/stripper.go:20-21 | a file in which all features are well nested is well nested for any chosen ones |
| StripShapes.LineIff | cmd/init/stripper.go:57-69 | for any line on which no stripped feature is named twice: all well-nested files of such lines and of lines with one marker at most are stripped right if and only if the line is harmless |
| StripShapes.TwoMarks | cmd/init/stripper.go:57-69 | a line with an end and a start is harmless if and only if not both features are stripped; one with two starts, or two ends, if and only if not both are or the outer one is stripped first |
| StripShapes.BothMarkersIff | cmd/init/stripper.go:57-67 | a line with both markers of a feature only opens its block, or only closes it; what follows is treated as with the markers on two lines if and only if the next line opens a block of the feature again |
| StripShapes.OneLineBlockFails | cmd/init/stripper.go:78-80 | without a later end marker a one-line block is reported as unclosed |
| RateLimit.Store.Get | internal/middleware/rate_limit.go:46-75 | a request on the linked map and list returns the limiter and leaves the list that the recency specification prescribes, with map and list in bijection; a miss puts a new limiter in front of what is kept by age and size |
| RateLimit.Store.EvictFor | internal/middleware/rate_limit.go:56-70 | the eviction loop ends with a prefix whose last entry is no older than the TTL and which leaves room for one more; each entry behind it was older than the TTL or one too many |
| RateLimit.Store.MoveToFront | internal/middleware/rate_limit.go:50-55 | a hit touches its entry in place and moves it to the front |
| RateLimitRuns.RunsKeepOk | internal/middleware/rate_limit.go:46-75 | after any requests with a non-decreasing clock: distinct keys, recency order, at most maxSize entries |
| RateLimitRuns.EvictExact | internal/middleware/rate_limit.go:56-70 | in a list by recency a miss keeps exactly the entries with now - lastSeen at most the TTL, less the oldest when the store is full of them; a TTL of zero or less is none |
| RateLimitRuns.PositionIsDistinctKeys | internal/middleware/rate_limit.go:50-69 | an entry stands behind exactly the distinct keys requested since, and is gone once they are maxSize or a miss came later than the TTL |
| RateLimitRuns.RetentionIff | internal/middleware/rate_limit.go:46-75 | two requests for a key with only others between them get the same limiter if and only if fewer than maxSize distinct keys came between and none of these requests was a miss later than the TTL after the first |
| RateLimitRuns.NoLateMiss | internal/middleware/rate_limit.go:59-63 | within the TTL there is no such miss |
| Pagination.ClampLimit | internal/platform/pagination/cursor.go:58-67 | 20 for a request of zero or less, 100 above 100, the request itself between |
| Pagination.List | internal/user/service.go:45-74 | an error exactly for a cursor that does not decode; otherwise a page with the id, email and user name of users behind the cursor, in order and none left out, at most 20, 100 or the limit asked for, and the last id as next cursor when there are more |
| Pagination.PageIsPage | internal/user/service.go:59-73 | what that page shows, from the query's result |
| Pagination.BehindExact | internal/user/repository.go:64-77 | the query returns exactly the users with a greater id, in order, or all of them for a zero cursor |
| Pagination.PageCovers | internal/user/service.go:52-62 | a page holds exactly the users behind the cursor, up to its last one when there are more |
| Pagination.WalkOverChanges | internal/user/service.go:47-74 | over any inserts, deletes and updates between fetches, ids increase strictly over all pages and a finished walk lists every id present throughout, if the first page does not stall on a zero id |
| Pagination.WalkListsUsers | internal/user/service.go:64-67 | everything listed has the id, email and user name of a user of some snapshot |
| Pagination.FixedProgress | internal/user/service.go:59-72 | on a fixed collection whose first page does not stall, k pages list the first k times the limit users, with more to come if and only if users are left |
| Pagination.WalkOverFixed | internal/user/service.go:47-74 | on a fixed collection whose first page does not stall the walk is finished exactly after PageCount pages and shows every user of the collection, field by field and in order |
| Pagination.FixedWalkIff | internal/user/service.go:47-74 | that holds of all walks over a fixed collection if and only if the limit is not one, or there is at most one user, or the first id is not zero |
| Pagination.PageCountIsCeiling | internal/user/service.go:59-62 | PageCount is max(1, ceil(n / limit)) |
| Pagination.ZeroIdRestarts | internal/user/repository.go:69-71 | the next cursor fetches the first page again if and only if the limit is one and the first id zero |
| Breaker.JitterRange | internal/platform/resilience/breaker.go:59-64 | the drawn timeouts are exactly [t - t/10, t - t/10 + t/5 - 1], within 10% of t, and a draw exists if and only if t is not 1 to 4 ns |
| Breaker.Registry.Breaker | internal/platform/resilience/breaker.go:45-80 | a call on its own: the registered breaker when it has the caller's type, a panic exactly otherwise or for timeouts of 1 to 4 ns, or a new one with the caller's settings, the default threshold and jitter; other entries unchanged |
| Breaker.StepKeepsInv | internal/platform/resilience/breaker.go:46-79 | each lock operation and map access keeps: mutual exclusion, at most one breaker created per name, and the registry that the calls so far would build one after another |
| Breaker.Singleton | internal/platform/resilience/breaker.go:42-44 | in every interleaving of any number of calls at most one breaker is created per name and all calls that return for a name return it |
| Breaker.Linearizable | internal/platform/resilience/breaker.go:45-80 | interleaved calls have the outcomes of the same calls one after another |
| Breaker.RealTimeOrder | internal/platform/resilience/breaker.go:45-80 | in that order a call that finished before another started comes first |
| Breaker.SettingsOfMaker | internal/platform/resilience/breaker.go:59-77 | a breaker has the name, type, allowance, interval and threshold (five by default) of the call that created it, and its timeout within the jitter |
| Breaker.PanicsOnlyIf | internal/platform/resilience/breaker.go:49-62 | a call panics only over the registered breaker's type or its own timeout of 1 to 4 ns; a returned breaker has the caller's type |
| Breaker.NeverStuck | internal/platform/resilience/breaker.go:46-54 | no lock is left behind, panics included: while a call is unfinished some call can step, also when a waiting writer keeps new readers out |
| Breaker.TenSteps | internal/platform/resilience/breaker.go:45-80 | in every run each call takes at most ten steps |
| Breaker.AllFinish | internal/platform/resilience/breaker.go:45-80 | so every run has at most ten steps for each call it starts, and when no call can step all have finished |
| SpanTracker.StepKeepsInv | internal/platform/database/mongo_otel.go:33-78 | each step of Started, finish and the janitor keeps the accounting of every span |
| SpanTracker.LossIff | internal/platform/database/mongo_otel.go:42-78 | whatever ids are used, no span is ever lost if and only if no store overwrites an entry that the janitor does not have in hand and the janitor deletes no entry but the one in hand |
| SpanTracker.LostForGood | internal/platform/database/mongo_otel.go:42-65 | a lost span is never found or ended again |
| SpanTracker.NoSpanLost | internal/platform/database/mongo_otel.go:54-78 | with ids that are free at the start of their commands every started span is about to be stored, in the map, about to be ended by who took it, or ended; each side ends it at most once |
| SpanTracker.EndsExactly | internal/platform/database/mongo_otel.go:42-65 | at rest a span out of the map was ended once, and twice if and only if finish took it while the janitor had it in hand |
| SpanTracker.UniqueIdsAreFree | internal/platform/database/mongo_otel.go:54-78 | in every run in which no id is used twice, each id is free at the start of its command, so no span is lost |
| SpanTracker.OneSpanPerId | internal/platform/database/mongo_otel.go:54-65 | in such a run no two commands have one id, so a finish under an id is that of the command whose entry it takes |
| SpanTracker.HowEntriesLeave | internal/platform/database/mongo_otel.go:43-56 | an entry leaves the map only by a finish under its id, or by the janitor when older than two minutes and ended |
| SpanTracker.CreatedWhenStored | internal/platform/database/mongo_otel.go:77-77 | an entry's age counts from the step that stored it |
| SpanTracker.SweepClears | internal/platform/database/mongo_otel.go:40-50 | whatever ids are used, after a complete sweep no entry remains that was older than two minutes when it began |
| SpanTracker.ReuseLosesASpan | internal/platform/database/mongo_otel.go:77-77 | a run that reuses an id in the map and loses the first span |
| SpanTracker.SweepLosesASpan | internal/platform/database/mongo_otel.go:46-46 | a run that reuses an id of a finished command, still in the janitor's hand, and loses the second span |
| Health.Registry.Register | internal/platform/health/health.go:78-84 | appends the checker and replaces the result of its name by an empty one, nothing else |
| Health.CheckersAreRegistered | internal/platform/health/health.go:78-84 | the checkers are those of all registrations, each one, in order |
| Health.Registry.RunAll | internal/platform/health/health.go:107-126 | one check for each registration so far, in order, with registrations by others between the updates; the results are those that the whole history determines |
| Health.Registry.Refresh | internal/platform/health/health.go:86-105 | the refresher's loop: without registrations in between, as many cycles as the limit in which every check of a critical name failed leave it failing |
| Health.Registry.Ready | internal/platform/health/health.go:155-167 | ready if and only if no name is failing by its history |
| Health.SeverityIsLast | internal/platform/health/health.go:78-84 | a name has the severity of its last registration |
| Health.ChecksSince | internal/platform/health/health.go:83-83 | the checks that count for a name are those behind its last registration |
| Health.FailingIff | internal/platform/health/health.go:158-165 | a name is failing if and only if it is critical, with severity zero, and its last limit checks all failed |
| Health.FailsThroughout | internal/platform/health/health.go:119-123 | the same for a critical name whose every check fails for that many cycles, whatever happened before |
| Health.FailingCycles | internal/platform/health/health.go:119-123 | after failing cycles the counter grew by cycles times the number of checkers under the name |
| Health.FlipsAfter | internal/platform/health/health.go:57-59 | a fresh critical name makes the service not ready exactly when that product reaches the limit |
| Health.CountsCyclesIff | internal/platform/health/health.go:34-35 | the counter is a number of cycles if and only if the name is registered once or the limit is one |

## Left out

- Brokers, the AWS SDK, franz-go, the Mongo driver, OpenTelemetry, gin, koanf and wire: foreign code; they appear as the environment's steps and contracts.
- Trace spans, logging and heartbeats: no effect on routing; injected trace headers are arbitrary values under the propagator's names.
- Baggage other than the message's own: a consumer's context is taken to carry none, so injection on SQS writes `baggage` only when some spelling of it was there.
- Fetch and receive errors with their waits, visibility timeout, wait time, batch size: a receive returns any deliverable messages, possibly none.
- The endless loops: modelled as any number of polls or receives before the context ends.
- Wall-clock sleeping: interference takes its place; times are inputs of a clock that does not go back.
- KafkaClient.Cluster.Poll: that a poll resumes at the committed offset is an assumption on the client library, which is not part of this model.
- KafkaGuarantees.NoLoss: assumes a raw retry suffix that is not empty, because the retry consumer's closure does not default it, and a main topic that does not end in it.
- SqsClient.Broker.DeleteMessage: does not promise that a reported deletion took effect, because the service may accept a receipt of an earlier delivery without deleting; so SqsConsumer.DeleteMessage does not either.
- SqsConsumer.Consume: message retention and a queue's native redrive policy are not part of this model.
- GoStrings.ToLower: exact for ASCII and for the letters whose case folding meets ASCII; other letters map to themselves, which no platform name can tell apart.
- Payload bytes are characters: lengths and cuts count elements of a string.
- The JSON and base64 form of a cursor: a codec whose round trip holds and whose text is never empty.
- Pagination.List: a failing query returns its error to the caller and is not part of this model.
- Token buckets, the breakers' own state machine and the retry helper: library code; a limiter or breaker is an opaque value.
- The order in which a read-write lock admits blocked readers and further writers after an unlock: any order, where Go lets the readers in first.
- Health.Registry.Refresh: one loop, since the refresher is started at most once; that guard, the ticker and the timeout of a check are not part of this model.
- Stripper.StripFeature: carriage returns and the scanner's 10 MB line limit; a missing file and file modes.
- StripShapes.LineIff: does not say when a line is harmless that names several stripped features and one of them twice; with one feature alone BothMarkersIff does.
- StripPipeline.StripSelected: one file; deleting a feature's paths and walking the tree are file operations.
- HTTP handlers, middleware around the store, user registration, roles, configuration loading: single branches or thin wrappers.
