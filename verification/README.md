# Verified models of the local-cluster harness, the API client generator and their helpers

The project models, in Dafny 4.11, the logic this repository owns outside its node libraries, and proves what that logic promises:

- **Latency relay** (`RelayFlow`, `RelayOrdering`, `RelayFate`, `RelayBursts`, `RelayStalls`, `RelayWorker`, `RelaySessions`, `RelayLinks`, `Latency`). One directed flow is a state machine: datagrams are offered to a bounded channel, a worker moves them to a bounded release heap and drains it by the clock, in any interleaving. Beside it stand the session table with its eviction, the tables of cut and stalled links with what a stall does to the order, and the delay a link may draw.
- **OpenAPI 3.1 to 3.0 normaliser** (`Json`, `NullableNormaliser`, `NullableRules`, `NullableNormalForm`, `NullableFixedPoints`, `SchemaMeaning`, `ResponsePruning`). Both rewrites of the document, what they leave behind, and what a schema accepts before and after.
- **Safe calldata** (`MachineWords`, `ByteStrings`, `AbiWords`, `SafeCalldata`). The hand-written head/tail encoder against a strict reader of the Contract ABI Specification.
- **Metric scrape** (`Text`, `MetricLabels`, `MetricScrape`). Lines, tokens, the label splitter and the `_total`-insensitive sum against a renderer of the Prometheus text exposition format.
- **Sessions** (`SessionTarget`, `SurbBalancer`). Target texts with base64 (RFC 4648 section 5), and the SURB balancer conversions with their 64-bit wrap-around.
- **Orchestrator** (`ClusterLocks`, `ClusterLifecycle`). The two-lock admission of competing instances, step by step, and the lifecycle a status reader can see.
- **Two helpers** (`MetricIntervals`, `HeapSampling`). Last-wins interval settings and even sampling.

Code that updates state is a class or a method with loops (`SenderWorker`, `Relay`, `LinkTables`, `LockHandle`, `ClusterSummary`, the two document passes, the splitter, the interval loop); each is proved against the functions about which the theorems speak. Protocols with several actors are state machines whose theorems hold over every run.

`dafny verify dfyconfig.toml` checks everything.

## Where the code and its documentation disagree

The model follows the code in each case.

- `localcluster/src/relay.rs:18` and `:317-318` say a fixed delay preserves order. The stamp includes the stall hold, so when a stall window closes a later datagram gets an earlier stamp and overtakes (`AClosingWindow` is an example). `FifoExactlyOnSteadyLinks` gives the exact condition on the link's entry in the stall table, `FifoExactlyWhenStampsNeverDecrease` the one on the stamps.
- `localcluster/src/latency.rs:101-102` promises a single description when every inbound link is shaped identically. Sources without a delay are skipped, so one line may hide them; `SingleLineIsTrueIff` says when it does not.
- `localcluster/src/lock.rs:34-36` says a leftover pid never misleads. Between taking the lock and rewriting the pid (or if the rewrite fails) a rejected instance is told the pid of an earlier one: `LeftoverPidMisleads`, and `HintNamesTheHolderIff` for the exact condition.
- `localcluster/src/summary.rs:47` says a ready node's address is known. Addresses are fetched only after all nodes are ready. `ReadyHaveAddressesIff` says in which readings every ready node has its address, and `ReadyHaveAddressesInState` in which cluster states a reader can rely on it: all but starting and failed.
- `docs/localcluster/README.md:291` says a custom control base lets two clusters share a data directory. The code takes `data.lock` as well, and `NoTwoShare` holds for every control base.
- `localcluster/src/main.rs:130-137` tells the two locks apart by path. If `data.lock` is a link to the control lock file, the instance is refused by its own first lock, and no run admits it: `FreeLocksAdmitIff`, `NoSelfConflict`.
- `rest-api-client/build.rs:105-113` does not look again at what it inlines; `InlinedTypeListSurvives` shows a list of types that survives the pass and `OnePassSufficesIff` gives the exact condition.
- `localcluster/src/client_helper.rs:72-75` admits that label values with white space would split wrongly. `LineReadsBackIff` says exactly which lines are read back, and `FiveForOne` is one whose number comes out of a label.
- `localcluster/src/curvy_grant.rs:160` cuts the answer by bytes: an answer with a multi-byte character across the 64th byte panics instead of being reported as non-hex. `AnswersByTheFirstWord` says exactly when.

## Model

| member | source | states |
|---|---|---|
| RelayFlow.RunKeeps | localcluster/src/relay.rs:319-374 | Every reachable state of a flow is bounded, conserves each datagram, keeps the heap ordered and timed, numbers acceptances consecutively and keeps the channel the unread suffix of what entered. |
| RelayOrdering.ConservationAndBounds | localcluster/src/relay.rs:219-233 | Every datagram offered is in exactly one of channel, heap, sent and the three kinds of drop; each queue holds at most 1024, so at most twice that is buffered. |
| RelayOrdering.SentOnTimeAndInDrainOrder | localcluster/src/relay.rs:330-342 | Nothing leaves before its stamp plus a delay its link may draw; one drain emits in (release, seq) order. |
| RelayOrdering.DrainLeavesNothingDue | localcluster/src/relay.rs:331-344 | When a drain ends, nothing left in the heap was due at the drain's own time. |
| RelayOrdering.OvertakenOnlyFromTheChannel | localcluster/src/relay.rs:345-360 | Under any delay, if a datagram leaves before one with a smaller key, the other had already entered and was still in the channel. |
| RelayFate.RefusedIff | localcluster/src/relay.rs:222-229 | Over every run, a datagram is refused if and only if 1024 others wait in the channel at the moment it is offered. |
| RelayFate.DroppedIff | localcluster/src/relay.rs:346-360 | Over every run, a datagram that was read is dropped iff the heap held 1024 others at that moment or its release could not be represented; otherwise it is accepted under the next number. |
| RelayFate.BufferedCanBeSent | localcluster/src/relay.rs:330-368 | From every reachable state whatever the heap holds is sent by the worker alone as soon as the clock reaches its release. |
| RelayFate.OfferDoes | localcluster/src/relay.rs:222-233 | Offering appends to a channel with room, stamped with the time plus the hold; a channel of 1024 refuses; nothing else changes. |
| RelayFate.ReceiveDoes | localcluster/src/relay.rs:346-360 | Receiving takes the head of the channel: dropped by a heap of 1024, dropped on overflow, or put into the heap with its release and number. |
| RelayFate.WorkerDoes | localcluster/src/relay.rs:330-368 | A drain reads the clock once, sends the head while it is due and ends at the first that is not; the worker wakes when the head is due. |
| RelayOrdering.ConstantDelayIsFifo | localcluster/src/relay.rs:312-374 | With no delay or a constant one and stamps that never decrease, every interleaving has sent plus heap equal to the accepted sequence, which keeps the order of offering. |
| RelayOrdering.FifoExactlyWhenStampsNeverDecrease | localcluster/src/relay.rs:16-22 | For any burst that fits a queue under a constant delay: all interleavings keep acceptance order if and only if the stamps never decrease. |
| RelayBursts.LongerBurstMayBeInOrder | localcluster/src/relay.rs:345-360 | One datagram more and the condition is no longer necessary: after a queue full of equal stamps an earlier one overtakes nothing, in any run. |
| RelayStalls.FifoExactlyOnSteadyLinks | localcluster/src/relay.rs:108-127 | Every run of a link under a constant delay, however long, keeps acceptance order if and only if its stall entry is absent, adds no delay, never stalls, or always does. |
| RelayStalls.StampsMonotoneIff | localcluster/src/relay.rs:118-126 | Over all clock readings the stamps of a link never decrease if and only if its entry is of that kind. |
| RelayStalls.SameHoldIsFifo | localcluster/src/relay.rs:312-374 | A link that holds every datagram back equally, or not at all, keeps order in every run. |
| RelayStalls.LaterOvertakes | localcluster/src/relay.rs:222-233 | For any history of holds: two instants at which the later stamp is earlier give a run that delivers out of order. |
| RelayStalls.MonotoneStamps | localcluster/src/relay.rs:222-233 | For any history of holds under which stamps never decrease over time, they never decrease in the channel. |
| RelayStalls.Forward | localcluster/src/relay.rs:218-233 | The stamp given to a datagram is the time plus what the stall table holds its link back. |
| RelayStalls.AClosingWindow | localcluster/src/relay.rs:118-126 | With 300 ms in every second held back by 500 ms, a datagram a nanosecond later is stamped half a second earlier. |
| RelayOrdering.BurstIsRead | localcluster/src/relay.rs:345-358 | Any burst of at most 1024 datagrams, whatever its stamps, can be accepted in full before time advances. |
| RelayWorker.DrainSendsExactlyTheDue | localcluster/src/relay.rs:331-344 | Without interference the drain loop sends exactly the due prefix of the heap, in key order, and touches nothing else. |
| RelayWorker.SenderWorker.TrySend | localcluster/src/relay.rs:222-233 | Appends the stamped datagram to a channel of fewer than 1024, else leaves it as it was; this is the machine's clock and offer events. |
| RelayWorker.SenderWorker.Drain | localcluster/src/relay.rs:330-344 | The loop over the heap is a drain of the machine: what it sends is due, what stays is not, and together they are the old heap. |
| RelayWorker.SenderWorker.Receive | localcluster/src/relay.rs:346-360 | Takes the head of the channel; with room and a representable release the heap gains exactly that datagram under the next number, else it is unchanged; this is the machine's receive event. |
| RelaySessions.Relay.LeastRecentlySeen | localcluster/src/relay.rs:193-196 | Finds a peer whose last activity is least, or nothing in an empty table. |
| RelaySessions.Relay.OnDatagram | localcluster/src/relay.rs:188-234 | The loop body is a step of the table; a datagram on a cut link leaves a known peer's table unchanged, and everyone but the sender and the one evicted keeps their time. |
| RelaySessions.ArrivalDoes | localcluster/src/relay.rs:191-234 | What one datagram does to the table, case by case: cut link, failed upstream, dead worker, otherwise `last_seen`; who is evicted and when. |
| RelaySessions.LastSeenIs | localcluster/src/relay.rs:213-218 | Over every run, a session's `last_seen` is the time its peer's last datagram was let through since the session was made, or else the time it was made. |
| RelaySessions.TableIsBounded | localcluster/src/relay.rs:192-199 | In every run the table never exceeds MAX_SESSIONS. |
| RelaySessions.EvictsLeastRecentOfFullTable | localcluster/src/relay.rs:191-200 | Only a full table evicts, only for a newcomer, and always its least recently seen session. |
| RelaySessions.EvictionNeedsManySendersSince | localcluster/src/relay.rs:174-235 | A touched peer is not evicted until MAX_SESSIONS distinct other peers have sent something at its instant or later, even when upstreams fail or links are cut, for any clock that never goes back. |
| RelaySessions.EvictionNeedsManyOtherSenders | localcluster/src/relay.rs:174-235 | When no two arrivals read the same instant, all of those sent after it. |
| RelayLinks.LinkTables.ReloadBlocked | localcluster/src/relay.rs:378-406 | Exactly the pairs that are the first two tokens of some line are cut, in both directions. |
| RelayLinks.LinkTables.ReloadStalled | localcluster/src/relay.rs:409-445 | The last line of exactly five numbers for an unordered pair sets period, stall and delay, in this order, for both directions; nothing else is in the table, and it is the hold of the link. |
| RelayLinks.NumbersAre | localcluster/src/relay.rs:418-421 | The numbers of a line are its number tokens in order; other tokens are skipped. |
| RelayLinks.LastStallIs | localcluster/src/relay.rs:409-445 | The last line of five numbers for a pair is its entry: two nodes, period, stall, delay. |
| RelayLinks.OtherLinesAreIgnored | localcluster/src/relay.rs:422-424 | A line without exactly five numbers changes nothing, wherever it stands. |
| RelayLinks.HoldIs | localcluster/src/relay.rs:118-126 | A link stalls in the first milliseconds of every period since the epoch, and there it holds datagrams back by its delay. |
| RelayLinks.LastValidLineWins | localcluster/src/relay.rs:409-445 | A pair's entry comes from a valid line for it that no later valid line overrides; no entry means no such line. |
| RelayLinks.StallShare | localcluster/src/relay.rs:108-127 | Over max(period, 1) consecutive milliseconds from any start exactly min(stall, period) are stalled. |
| Latency.ConstantDelay | localcluster/src/latency.rs:38-54 | Says exactly which distributions always draw the same value, and which: no delay, a fixed one, an empty range, a normal one without deviation. |
| Latency.DrawsAre | localcluster/src/latency.rs:38-54 | What a draw of each distribution may be. |
| Latency.MostSpecificWins | localcluster/src/latency.rs:86-92 | A link's own entry comes before that of its destination, and that before the default; entries for other links and nodes do not matter. |
| Latency.DescribeInbound | localcluster/src/latency.rs:103-122 | No description iff no source is delayed; a breakdown lists exactly the delayed sources as printed, not all alike; a single line is the printed form of every delayed source. |
| Latency.SingleLineIsTrueIff | localcluster/src/latency.rs:86-122 | The single line holds for every inbound link iff there is a default, a per-node entry, or a link entry for every source. |
| NullableNormaliser.NormalizeNullableTypes | rest-api-client/build.rs:48-132 | The pass, loops and deletions included, computes the function about which the theorems below speak. |
| NullableNormaliser.RewriteWithin | rest-api-client/build.rs:48-132 | Rewriting an object never deepens what is visited next, which is why the recursion ends. |
| NullableRules.TypeRule | rest-api-client/build.rs:57-91 | What a list of types becomes, key by key: nothing, one type, or a `oneOf` in place of any other; `nullable` only if absent; all else unchanged. |
| NullableRules.UnionRule | rest-api-client/build.rs:94-124 | What a union becomes, key by key: removed when no array, untouched without a null variant, reduced, or replaced by the entries of its single other variant, which win over what stood there. |
| NullableRules.VisitRule | rest-api-client/build.rs:49-54 | Every value of the rewritten object and every item of an array is visited; scalars stay. |
| NullableRules.NonNullAre | rest-api-client/build.rs:99-102 | The variants without the null schema, in their order. |
| NullableRules.NamesAre | rest-api-client/build.rs:58-68 | The names in a list of types, in their order, without "null" and without what is no string. |
| NullableNormalForm.NormalIsFixed | rest-api-client/build.rs:48-132 | A document in normal form is left alone. |
| NullableNormalForm.NullOnlyFromNull | rest-api-client/build.rs:192-194 | A schema becomes the null schema only if it was it: no pass creates a null variant. |
| NullableNormalForm.RewriteIsLocallyNormalIff | rest-api-client/build.rs:56-124 | With array unions, one object's rewriting leaves no list of types and no null variant iff what it inlines brings none past its step. |
| NullableNormalForm.OnePassSufficesIff | rest-api-client/build.rs:48-132 | With array unions, one pass reaches normal form at every depth if and only if everything inlined is settled. |
| NullableNormalForm.SecondPassIsIdentity | rest-api-client/build.rs:48-132 | Then a second pass changes nothing. |
| NullableFixedPoints.FixedIffNormal | rest-api-client/build.rs:48-132 | With array unions, a document is left alone by a pass if and only if it is in normal form. |
| NullableFixedPoints.SecondPassIsIdentityIff | rest-api-client/build.rs:48-132 | With array unions, a second pass changes nothing if and only if everything inlined by the first was settled. |
| NullableFixedPoints.PassShallower | rest-api-client/build.rs:94-124 | A pass never nests unions with a null variant deeper than they were. |
| NullableNormalForm.PlainInliningSuffices | rest-api-client/build.rs:104-113 | A condition on the document as written (inlined variants have no list of types and no union) is enough. |
| NullableNormalForm.InlinedTypeListSurvives | rest-api-client/build.rs:107-112 | A document on which one pass does not suffice. |
| SchemaMeaning.TypeStepKeepsMeaning | rest-api-client/build.rs:57-91 | Splitting a list of disjoint types into one type or a generated `oneOf`, with `nullable`, accepts the same values. |
| SchemaMeaning.UnionStepKeepsMeaning | rest-api-client/build.rs:94-124 | Dropping the null variant for `nullable`, inlining a lone flat variant, accepts the same values. |
| SchemaMeaning.MeaningPreserved | rest-api-client/build.rs:48-132 | On the stated fragment, at every depth, the normalised schema read as OpenAPI 3.0 accepts exactly what the original accepts as JSON Schema 2020-12. |
| SchemaMeaning.TypeListKeptIff | rest-api-client/build.rs:57-91 | For a bare list of types: the meaning is kept if and only if it names a type besides null and no two of its types overlap. |
| SchemaMeaning.NullableUnionKeptIff | rest-api-client/build.rs:94-124 | For a bare union with a null variant over variants that keep their own meaning: it is kept if and only if another variant is left and, for `oneOf`, only one variant accepts null. |
| ResponsePruning.NormalizeResponseContent | rest-api-client/build.rs:134-190 | The pass computes the function about which the theorems below speak, for any order of the keys. |
| ResponsePruning.FirstWithContentIs | rest-api-client/build.rs:143-160 | The scan finds the first key, in order, whose response has content, and nothing only if there is none. |
| ResponsePruning.KeptResponse | rest-api-client/build.rs:142-182 | The chosen response is kept alone with one media type; with no content anywhere nothing changes. |
| ResponsePruning.OnePassPrunes | rest-api-client/build.rs:134-190 | After one pass, at every depth, each `responses` object has no content at all or one response with one media type. |
| ResponsePruning.ExactlyTheChosenResponse | rest-api-client/build.rs:142-186 | Unless a response is itself keyed `responses`, the visited object holds exactly the preferred response with `application/json` or else the first media type. |
| ResponsePruning.PreferredResponseIsKept | rest-api-client/build.rs:143-160 | The response kept is the first of 200, 201, 202, 204, 206 and 207 with content, else the first with content in the library's order; all are kept when none has any. |
| ResponsePruning.KeptResponseIs | rest-api-client/build.rs:162-181 | Of several media types `application/json` stays, else the first, with its value; the rest of the response is visited as it was. |
| ResponsePruning.OthersAreVisitedAsTheyWere | rest-api-client/build.rs:184-186 | Nothing but an object under `responses` is touched at its level. |
| ResponsePruning.SecondPassIsIdentity | rest-api-client/build.rs:134-190 | Two passes are one. |
| AbiWords.WordU64IsWord | localcluster/src/curvy_grant.rs:104-108 | The 8 bytes written at offset 24 are the 256-bit big-endian word of the value. |
| AbiWords.MostSignificantFirst | localcluster/src/curvy_grant.rs:104-108 | The first byte of a word is the most significant. |
| AbiWords.ReadMeansTail | localcluster/src/curvy_grant.rs:115-120 | What the strict reader takes for a dynamic argument is the canonical tail of what it read, padding included. |
| SafeCalldata.EncodeExecTransaction | localcluster/src/curvy_grant.rs:103-140 | The assembled bytes are read back by the strict reader to exactly the arguments; the length is a selector plus whole words. |
| SafeCalldata.DecodesWhatWasEncoded | localcluster/src/curvy_grant.rs:103-140 | The strict reader inverts the canonical encoding of any `execTransaction` arguments that fit their types. |
| SafeCalldata.EncodesWhatWasDecoded | localcluster/src/curvy_grant.rs:103-140 | Whatever the strict reader accepts is the canonical encoding of what it read, so no two encodings mean the same. |
| SafeCalldata.CalldataLength | localcluster/src/curvy_grant.rs:121-139 | Selector, ten head words and two padded tails: 4 plus a multiple of 32. |
| SafeCalldata.CalldataLayout | localcluster/src/curvy_grant.rs:121-139 | Where everything stands: the selector, the ten head words in the order of the signature, both offsets, and the two byte strings with length and zero padding. |
| SafeCalldata.PrevalidatedSignature | localcluster/src/curvy_grant.rs:94-100 | 65 bytes from which the owner, and only zeros and the mark beside it, are read back. |
| SafeCalldata.EncodeTryGetTarget | localcluster/src/curvy_grant.rs:143-150 | The selector and the address, padded to a word on the left. |
| SafeCalldata.GrantCalldata | localcluster/src/curvy_grant.rs:74-140 | The nested grant reads back to the module called, the aggregator scoped and the owner signing. |
| SafeCalldata.TrimmedToOneIffOne | localcluster/src/curvy_grant.rs:160-165 | Trimming zeros leaves "1" exactly when the hex word is the number one. |
| SafeCalldata.HexDigitsAre | localcluster/src/curvy_grant.rs:161-164 | Which bytes are hex digits, and what they stand for. |
| SafeCalldata.AnswersByTheFirstWord | localcluster/src/curvy_grant.rs:153-166 | For every string: it answers iff there are 128 characters and the first word is hex, true iff that word is one; it panics iff a character straddles the cut. |
| SafeCalldata.ReadsEveryAnswer | localcluster/src/curvy_grant.rs:153-166 | Every ABI-encoded answer is read back, with or without the 0x prefix. |
| MetricLabels.SplitLabels | localcluster/src/client_helper.rs:142-160 | The scanner computes the recursive splitter below. |
| MetricLabels.SplitsRenderedBlock | localcluster/src/client_helper.rs:140-160 | The splitter inverts the renderer: exactly the pairs, in order, whatever commas, braces, quotes and escapes the values contain. |
| MetricLabels.SplitsLooseBlock | localcluster/src/client_helper.rs:151-159 | White space around the pairs and a comma after the last make no difference. |
| MetricLabels.FilterIsExact | localcluster/src/client_helper.rs:128-138 | A rendered pair as filter selects a block iff the block carries that label with that value. |
| MetricLabels.StripTotalSuffixes | localcluster/src/client_helper.rs:120-126 | The loop removes every trailing `_total`. |
| MetricLabels.StripsOneTotal | localcluster/src/client_helper.rs:120-126 | One `_total` at the end is taken off. |
| MetricLabels.KeepsOtherNames | localcluster/src/client_helper.rs:120-126 | A name that does not end in it is left alone. |
| MetricLabels.SameSeriesIff | localcluster/src/client_helper.rs:103-114 | Two names compare equal iff they are one base name with any numbers of `_total` appended. |
| MetricScrape.LineReadsBackIff | localcluster/src/client_helper.rs:72-93 | A rendered line, with or without a timestamp, is read back as its sample if and only if no label value contains white space other than escaped line feeds. |
| MetricScrape.LineYields | localcluster/src/client_helper.rs:79-90 | What any line of two or more tokens yields: nothing if it starts with `#` or the second is no number, else the first split at its brace with that value. |
| MetricScrape.ShortLineYieldsNothing | localcluster/src/client_helper.rs:79-84 | A line with fewer than two tokens yields nothing. |
| MetricScrape.FirstLine | localcluster/src/client_helper.rs:77-78 | A line ends at a line feed, with or without a carriage return before it; the last needs none. |
| MetricScrape.SpaceMisleads | localcluster/src/client_helper.rs:74-84 | A number standing free in a label value is read as the value of the line. |
| MetricScrape.FiveForOne | localcluster/src/client_helper.rs:74-84 | The line `m{k="x 5 y"} 1` makes the sum of `m` 5. |
| MetricScrape.LinesOfBody | localcluster/src/client_helper.rs:77-79 | The lines of a rendered scrape are the lines written, comments and blanks included. |
| MetricScrape.SumIsExact | localcluster/src/client_helper.rs:76-118 | From the text of a scrape to the sum: when no label value contains such white space, the sum is that of exactly the intended samples, however many `_total` either side uses. |
| SessionTarget.Base64Decodes | rest-api/src/session.rs:52-69 | Every byte string is decoded back from its padded URL-safe base64. |
| SessionTarget.Base64IsCanonical | rest-api/src/session.rs:65-69 | What decodes is the encoding of what it decodes to. |
| SessionTarget.AlphabetIs | rest-api/src/session.rs:53-67 | The URL-safe alphabet of RFC 4648, letter by letter, and nothing outside it. |
| SessionTarget.ThreeBytesBits | rest-api/src/session.rs:52-54 | The bits of three bytes, most significant first, cut into four sextets. |
| SessionTarget.ShortGroups | rest-api/src/session.rs:52-54 | A shorter group is that of its bytes and zeros, with padding for what is missing. |
| SessionTarget.GroupsFollow | rest-api/src/session.rs:52-54 | Groups follow each other, and only the last may be short. |
| SessionTarget.RoundTripsIff | rest-api/src/session.rs:48-80 | Printing and parsing returns the target iff it is not a plain text starting with `$$` or `#`. |
| SessionTarget.ReprintsWhatItParsed | rest-api/src/session.rs:48-80 | Parsing and printing returns the text, except for service numbers not in plain decimal. |
| SessionTarget.RejectsOnlyNonEncodings | rest-api/src/session.rs:64-69 | A sealed text is rejected iff no byte string encodes to it. |
| SurbBalancer.BalancerRoundTripsIff | rest-api/src/session.rs:976-1011 | Balancer to configuration and back is the identity iff the target is at least 2 and both products fit in 64 bits. |
| SurbBalancer.TooSmallTargetGivesNone | rest-api/src/session.rs:976-998 | A target below 2 comes back as no balancer. |
| SurbBalancer.ConvertsTo | rest-api/src/session.rs:978-997 | No buffer gives the defaults, less than two packets no balancer, otherwise whole packets at the rate the bandwidth allows or the default one. |
| SurbBalancer.ShownAs | rest-api/src/session.rs:1000-1011 | A balancer is shown as both products, on 64 bits. |
| SurbBalancer.RoundingLosesLessThanOne | rest-api/src/session.rs:976-1011 | Configuration to balancer and back never increases a figure, loses less than one packet of buffer, and less than one SURB per second of bandwidth iff the bandwidth fits in 64 bits. |
| SurbBalancer.RoundingIsIdempotent | rest-api/src/session.rs:976-1011 | After one conversion and back, another changes nothing, whichever figures are given, when the defaults fallen back on fit in 64 bits. |
| SurbBalancer.SecondRoundingKeepsIff | rest-api/src/session.rs:976-1011 | Whatever the defaults: a converted configuration is kept iff its buffer is at least two packets and both figures are whole units. |
| ClusterLocks.RunIsSafe | localcluster/src/main.rs:124-137 | In every reachable state an instance holds the locks its phase implies and no lock has a holder that has not come that far. |
| ClusterLocks.NoTwoShare | localcluster/src/main.rs:124-137 | No two instances past admission share a data directory, a control base or any lock file, in every interleaving of starts, refusals, failed pid writes, exits and crashes. |
| ClusterLocks.ResetOnlyByTheHolder | localcluster/src/state.rs:13-35 | Node state is reset only by the holder of that directory's data lock, while nobody else is past admission for it. |
| ClusterLocks.ResetsNeverOverlap | localcluster/src/main.rs:172-172 | Between resets of one directory by two instances the first has left. |
| ClusterLocks.FreeLocksAdmitIff | localcluster/src/lock.rs:3-8 | After any history of refusals and crashes, an instance whose locks are free can be admitted by its own steps iff its data lock is not a link to its control lock. |
| ClusterLocks.NoSelfConflict | localcluster/src/main.rs:130-137 | Without a competitor, no schedule refuses an instance unless its data lock is such a link. |
| ClusterLocks.HintNamesTheHolderIff | localcluster/src/lock.rs:60-87 | A pid a refused instance reads was written by its owner, who holds the lock or has left; while somebody holds it, it is the holder's iff the holder had finished writing it. |
| ClusterLocks.LeftoverPidMisleads | localcluster/src/lock.rs:31-37 | Any three instances with one control base have a run in which the third is told the pid of the first, which has left. |
| ClusterLocks.AcquireIsItsSteps | localcluster/src/lock.rs:49-105 | The steps of an undisturbed acquisition do to the lock file what the method does, whether truncating and writing succeed or not. |
| ClusterLocks.DataLockPath | localcluster/src/main.rs:130-132 | The path compared with the control lock is the path the second acquisition opens. |
| ClusterLocks.LockHandle.Acquire | localcluster/src/lock.rs:49-105 | Takes a free lock and rewrites the pid, or reports the pid found and changes nothing. |
| ClusterLocks.Admit | localcluster/src/main.rs:124-137 | Undisturbed admission succeeds iff both locks can be had, whether or not the pids can be written; a failed start gives back what it took, also when the two lock files are one. |
| ClusterLifecycle.ClusterSummary.MarkSpawned | localcluster/src/summary.rs:189-196 | Exactly the nodes with a process get its pid and become spawned. |
| ClusterLifecycle.ClusterSummary.SetNodeState | localcluster/src/summary.rs:199-203 | Changes one node's state and nothing else; an unknown id changes nothing. |
| ClusterLifecycle.ClusterSummary.SetAllNodeStates | localcluster/src/summary.rs:206-210 | Changes every node's state and nothing else. |
| ClusterLifecycle.ClusterSummary.SetNodeAddress | localcluster/src/summary.rs:213-217 | Records one node's address and nothing else. |
| ClusterLifecycle.WaitNodes | localcluster/src/main.rs:406-430 | Whatever the completion order, what readers see is a run; succeeds iff no check fails. |
| ClusterLifecycle.Orchestrate | localcluster/src/main.rs:148-400 | Readers see the run the outcomes lead to, in their order; every reading after the spawn shows each node's own pid and, once fetched, its own address; it shows running iff everything comes up, and ends shutting down or failed with the error. |
| ClusterLifecycle.ReadingsAreTrue | localcluster/src/main.rs:291-323 | In every reading a node's pid is that of its process and its address the one it answered. |
| ClusterLifecycle.PidShownIs | localcluster/src/summary.rs:189-196 | In every reading after the spawn, and in no other, a node shows the pid it was spawned with. |
| ClusterLifecycle.RunningMeansReady | localcluster/src/summary.rs:29-30 | Whoever reads running sees every node with pid and address, and channels open, or ready when channel management is disabled. |
| ClusterLifecycle.NodesNeverRegress | localcluster/src/summary.rs:189-217 | Between any two readings no node goes back along pending, spawned, started, ready, channels_open, none is shown as failed, and addresses and pids stay. |
| ClusterLifecycle.ClusterMovesForward | localcluster/src/main.rs:291-396 | The cluster state makes only the listed moves; an error is shown iff it failed; stopping or failing leaves the nodes as last shown. |
| ClusterLifecycle.AddressesComeAfterAllAreReady | localcluster/src/main.rs:307-323 | An address is shown only once all nodes are ready, so a node first shows as ready without one. |
| ClusterLifecycle.AddressShownIs | localcluster/src/main.rs:316-321 | In every reading node k shows exactly the k-th address fetched, if that many were fetched. |
| ClusterLifecycle.ReadyHaveAddressesIff | localcluster/src/summary.rs:47-47 | All nodes shown as ready or later have addresses if and only if none is ready yet or all addresses were fetched. |
| ClusterLifecycle.ReadyHaveAddressesInState | localcluster/src/summary.rs:24-37 | In every run and reading with cluster state s every ready node has its address, if and only if s is neither starting nor failed. |
| MetricIntervals.Units | hoprd/src/telemetry.rs:214-259 | A number means milliseconds bare or with `ms`, seconds with `s`, minutes with `m`, in either case and with white space around it; zero means nothing; minutes saturate. |
| MetricIntervals.PrefixedTokenMeans | hoprd/src/telemetry.rs:269-305 | `prefix=duration`, with white space anywhere around the parts, sets that prefix; a bad duration or empty prefix counts for nothing. |
| MetricIntervals.BareTokenMeans | hoprd/src/telemetry.rs:308-318 | A duration on its own sets the default; anything else without `=` counts for nothing. |
| MetricIntervals.SplitsJoined | hoprd/src/telemetry.rs:268-268 | Tokens joined by commas are split apart again. |
| MetricIntervals.LastEntryWins | hoprd/src/telemetry.rs:296-304 | What is kept for a prefix is its last valid entry. |
| MetricIntervals.LastDefaultWins | hoprd/src/telemetry.rs:318-318 | What is kept as the default is the last valid default. |
| MetricIntervals.ParseConfig | hoprd/src/telemetry.rs:261-331 | The loop keeps, in order of first valid use, each prefix with its last valid interval and the last valid default; nothing iff no entry is valid. |
| MetricIntervals.InOrderOfFirstUse | hoprd/src/telemetry.rs:296-304 | The kept prefixes stand in the order of their first valid entries. |
| MetricIntervals.PrefixesAreThoseSet | hoprd/src/telemetry.rs:296-304 | A prefix is kept iff some valid entry sets it. |
| MetricIntervals.ConfigIsSane | hoprd/src/telemetry.rs:214-331 | No prefix occurs twice and every interval is positive, whatever the setting says. |
| HeapSampling.SampleIsEven | profiling/jeprof_plot.py:100-104 | A short list is returned whole; otherwise the sample is k snapshots at strictly increasing indices from first to last, for any floating-point error below half a (k - 1)-th; only k = 1 divides by zero. |
| HeapSampling.IndicesAreEven | profiling/jeprof_plot.py:100-104 | The indices run strictly upwards from the first snapshot to the last, in range, for any such error. |
| HeapSampling.GapsDifferByAtMostTwo | profiling/jeprof_plot.py:100-104 | Any two gaps between neighbours differ by at most two, however the errors and ties fall. |
| HeapSampling.GapsDifferByAtMostOne | profiling/jeprof_plot.py:100-104 | With exact products any two gaps differ by at most one. |
| HeapSampling.RoundsToNearestEven | profiling/jeprof_plot.py:104-104 | Rounding finds the nearest integer, and of two equally near the even one. |

## Left out

- FifoExactlyWhenStampsNeverDecrease: the converse covers bursts of at most 1024 datagrams; for longer ones it is false (`LongerBurstMayBeInOrder`), and the exact condition on links (`FifoExactlyOnSteadyLinks`) has no such bound.
- FifoExactlyOnSteadyLinks: the wall clock that decides the stall phase is taken to run with the monotonic clock, and the entry not to change during the run; for changing entries `MonotoneStamps` and `LaterOvertakes` hold with any history of holds.
- MeaningPreserved: one direction only; the exact condition is proved for bare lists of types and bare unions with a null variant (`TypeListKeptIff`, `NullableUnionKeptIff`). OpenAPI 3.0.3 section 4.7.24 `nullable` is read as "also accepts null"; a reading that honours it only beside `type` would accept less after inlining. `$ref` and every keyword the module does not interpret assert whatever the parameter `other` says.
- EncodeExecTransaction: demands that lengths and offsets fit 64 bits, which every slice in memory meets.
- EvictionNeedsManyOtherSenders: assumes strictly increasing clock readings; `EvictionNeedsManySendersSince` needs only that they never go back.
- DescribeInbound: how one distribution is printed is a parameter.
- SumIsExact: parsing a floating-point number is a parameter, and values are reals.
- SampleIsEven: that the computed products are within half a (k - 1)-th of the exact ones is demanded of the arithmetic, not derived from its precision.
- Floating point in delay sampling: a draw is any value in the closed range of its distribution, any value for a normal one with a deviation, and its mean without one.
- Reading delay settings (`parse_delay`).
- Payloads of datagrams: a datagram is named by its position among everything offered, and a failed send counts as sent.
- `BinaryHeap` is given by its contents in key order, not by its array; `seq` does not wrap, and reading the clock and queueing are one step. The addition of a stall hold to the clock is not checked for overflow.
- Closing of a flow when its session is dropped, sockets, and cancellation inside `select!`.
- Tokens of the link files arrive already parsed; polling the files is not modelled.
- JSON updated in place through a mutable reference: the passes take a value and return the new one. The order in which an object lists its keys is an arbitrary function of the object.
- Setting the `openapi` version (`normalize_openapi_version`).
- The transport's packet and SURB sizes are parameters; 64-bit wrap-around is that of a release build.
- The file system is fixed during a run: lock files are not unlinked or relinked, and `flock` is reliable. A failed pid write leaves the file as it was or empty. Pids are distinct among the instances of a run (needed only for the pid hint).
- Node processes that outlive a killed harness, and moving legacy databases (`adopt_legacy_curvy_state`).
- The `blokli_url` and extra-identity fields of the summary, its rendering, and the control socket; the cluster size is the one the command line admits, so `start_nodes` never clamps it.
- HTTP handlers, chain containers, identities, strategies, telemetry export and the PIX exchange, whose protocol code is not part of this model.
