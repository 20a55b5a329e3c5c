# A model of the CRE Go SDK's hard logic

This project models three parts of the CRE SDK for Go and proves what they are meant to guarantee:
verifying a report against the capabilities registry, the two-mode runtime with its host and promises,
and the consensus descriptors with the projection they drive. `dafny verify dfyconfig.toml` checks all of it.

## Report verification

`ReportHeader` reads the 109-byte header. `Wire` holds the protobuf wire format: the hand-built call
request and the reply decoder, with a reference reader of the message grammar. `Abi` is the Solidity ABI
encoding as a canonical encoder and as a predicate that admits any placement of the tails; `Replies` decodes
the two registry replies with Go's 64-bit wrap-around and with slice and allocation panics, and compares
this with decoding over unbounded numbers. `Registry` is the chain read behind the process-wide cache,
`DonReads` says what a read gives end to end, `Quorum` is the greedy f+1 choice that writes signer ids and
trims the list in place, and `Reports` ties them together: the cached header, the places where a DON may be
accepted, and the first one that accepts.

Recovering a signer and hashing are two arbitrary functions (`Crypto`), the chain is an arbitrary fixed
function from requests to replies (`Chain`). A Go function that returns a value, returns an error or panics
is an `Outcome`. `Bytes.GoBytes` bounds a slice by 2^48 bytes, the largest Go allocation.

## The two-mode runtime

`Modes` is the runtime as a state machine over operations: calls, secrets, random sources and draws, awaits,
and the two halves of `RunInNodeMode`. The callback is the stretch of operations between an `Enter` and its
`Leave`; operations may name any node runtime ever created, the DON, or any promise, in any order, so that
escaped node runtimes, nested calls and repeated awaits are all ordinary runs. `Runtimes` has the objects
(`RuntimeHelpers` is the host) with every method proved against the machine, and `Workflows` runs any list of
operations on them and goes through exactly the machine's states. `Steps` says what a step can change;
`Nesting` says how callbacks nest and how a run fills a skeleton of entries and returns; `Exclusion`,
`CallbackIds`, `Isolation` and `Routing` are the theorems about whole runs.
`Promises` is the graph of `Then` and `ThenPromise` over once-only computations.

What the host and its capabilities answer is arbitrary and may differ from call to call (`World`); a random
source gives numbers that may depend on everything done with it.

## Consensus descriptors

`GoTypes` has Go types as indices into a table, so that recursive types can be written down, and the check for
identical consensus. `Tags` builds descriptors from struct tags. Both recursions are characterised by the
walks of the type graph (`Walks`). `Projection` clears map objects in place by a descriptor.

## Where the code differs from its description

- `RunInNodeMode` can be called inside its own callback. Once the inner callback returns, the DON runtime and the
  outer node runtime are both enabled (`NestedCallInDonMode`); `ExclusionIff` gives the exact condition. If another
  inner callback starts then, ids can collide and replies can go to the wrong promise (`NestedIdsCollide`,
  `NestedRepliesMixUp`); `IdsDistinctIff` and `RoutedIff` give the exact condition.
- The comment on `verifySigs` speaks of exactly f+1 signatures when there is no signer list. There is no such
  branch: without a list no signer is authorised. With f = -1 the empty list is accepted, and f below -1 panics.
- The cache key has the chain selector and the DON, not the registry address (`StaleAcrossRegistries`);
  `OwnDirectReadIff` gives the exact condition under which the cache cannot be noticed.
- The getDON decoder reads at fixed places and ignores the outer pointer; the encoding of a single return value
  always has the pointer 32, which is the only safe one (`OnlyPointer32IsSafe`).
- `common_prefix` looks through a pointer to a slice, `common_suffix` does not (`PointerToSlice`).
- The workflow name is documented as hexadecimal, but the ten raw bytes are kept (`NameIsRaw`).
- Awaiting does not look at the mode: a promise can be awaited from any mode, and `EachYieldsOwnReply` includes that.

## Model

| member | source | states |
|---|---|---|
| ReportHeader.PrintParse | cre/report_fields.go:37-59 | Every raw report of at least 109 bytes parses, and writing the parsed fields out again (big-endian numbers, hex fields decoded, raw name, body) gives back the same bytes |
| ReportHeader.FieldsAtOffsets | cre/report_fields.go:12-23 | Every field is what stands at its documented offset: numbers big-endian, hex fields in lower case, name and body as they are |
| ReportHeader.ShortIsRefused | cre/report_fields.go:37-45 | A nil report and one below 109 bytes are refused, each with its own error, and no other |
| ReportHeader.ParseInjective | cre/report_fields.go:37-59 | A long enough report shares its parse with no other byte string |
| ReportHeader.NameIsRaw | cre/report_fields.go:54-54 | The workflow name is the ten bytes at offset 77 as they are, never their hexadecimal text |
| Wire.VarintRoundTrip | cre/report_verification.go:327-327 | A 64-bit number written as a varint is read back, whatever follows it ("Base 128 Varints") |
| Wire.BuildRequest | cre/report_verification.go:316-334 | The appending of buffers gives the request bytes that `RequestRoundTrip` reads |
| Wire.RequestRoundTrip | cre/report_verification.go:316-334 | Read by the grammar of protobuf messages, the bytes are exactly the given address, the given call data and block number -3 |
| Wire.DecodeCallContractReplyData | cre/report_verification.go:373-409 | The reslicing loop terminates on all bytes and gives the data that `ReplyDataSound` and `ReplyDataComplete` characterise, or the error |
| Wire.ReplyDataComplete | cre/report_verification.go:373-409 | Behind any varint, fixed32, fixed64 or other length-delimited records the first length-delimited field 1 is returned, also with non-minimal varints and with anything after it |
| Wire.ReplyDataSound | cre/report_verification.go:373-409 | Whatever is returned is the content of the first length-delimited field 1 behind well-formed skippable records |
| Replies.DecodeDonReply | cre/report_verification.go:213-237 | The offset arithmetic with 64-bit wrap-around, each error branch, and the panics of slicing and allocation |
| Replies.DonNeverWraps | cre/report_verification.go:222-228 | With the pointer and count words below 2^57, decoding getDON over wrapping ints is decoding over unbounded ints: no wrap-around, no slice out of range |
| Replies.DonPanicIff | cre/report_verification.go:222-231 | Exactly which pointers and counts of a getDON reply make the decoder panic |
| Replies.DecodeDonCorrect | cre/report_verification.go:213-237 | A reply that lays out a DONInfo tuple at the pointer 32, with its tails anywhere, decodes to its f and its node ids |
| Replies.DecodeCanonicalDon | cre/report_verification.go:201-237 | The canonical ABI encoding of a DONInfo decodes to its f and its node ids in order |
| Replies.OnlyPointer32IsSafe | cre/report_verification.go:219-228 | All layouts with outer pointer p decode to their f and ids exactly when p is 32, or so large that no reply has room for a tuple behind it |
| Replies.OtherPointerMisread | cre/report_verification.go:219-228 | For every other pointer there are a reply long enough to be looked at and a tuple laid out in it that is misread |
| Replies.ShiftedDonMisread | cre/report_verification.go:219-224 | The instance of pointer 64: the configuration count comes out as f |
| Replies.DecodeNodesReply | cre/report_verification.go:274-305 | The second decoder, and at most length/32 + 1 rounds whatever count the reply claims |
| Replies.NodesNeverWrap | cre/report_verification.go:279-303 | With all pointers and the count below 2^57 nothing wraps and every slice is in range |
| Replies.NodesPanicIff | cre/report_verification.go:279-303 | The second decoder panics exactly on a negative or overflowing outer pointer, or when an element pointer that leads in front of the reply or overflows is reached before any that leads past its end |
| Replies.DecodeNodesCorrect | cre/report_verification.go:274-305 | Under any layout of the array of NodeInfo tuples the result is the signer map, or the too-short error below 64 bytes |
| Replies.DecodeCanonicalNodes | cre/report_verification.go:261-305 | The canonical ABI encoding of the nodes decodes to the map from signer to node operator |
| Replies.LastNodeWins | cre/report_verification.go:299-304 | That map has exactly the nodes' addresses, each with the operator id of the last node that has it |
| Replies.EncodeNodesCall | cre/report_verification.go:245-254 | The data of the second call is the selector and the ABI encoding of exactly the ids, in order |
| Replies.GetDonCallEncodes | cre/report_verification.go:191-194 | The data of the first call is the selector and the ABI encoding of the DON id |
| Replies.PadUint256IsWord | cre/report_verification.go:364-369 | padUint256 is the 32-byte big-endian word of the number |
| Registry.ChainRuntime.CallContract | cre/report_verification.go:315-362 | One request goes to the chain, and its reply is interpreted with all error cases |
| Registry.ReadRegistry | cre/report_verification.go:182-310 | The two lookups give the direct read and send exactly its requests, the second call's data being built from the ids just read |
| Registry.FetchDONInfo | cre/report_verification.go:175-311 | A hit gives the entry without a request; a miss gives the direct read and stores it only when it succeeded |
| DonReads.AddressIff | cre/report_verification.go:182-187 | The registry address is read exactly when its text is hexadecimal of either case, by itself or behind 0x, 0X or both, and is the bytes that the text says |
| DonReads.ReadsDon | cre/report_verification.go:182-310 | End to end: when the chain answers the getDON call at the registry with a layout of a DON tuple, and the getNodesByP2PIds call for its ids with a layout of node tuples, the read gives that f and those signers by exactly these two calls |
| DonReads.ReadsEmptyDon | cre/report_verification.go:239-243 | Without node ids it gives f and no signers by the first call alone |
| DonReads.FetchesDon | cre/report_verification.go:175-311 | A fetch that misses the cache gives and stores that; one that hits gives the entry and asks nothing |
| DonReads.NoAddressFails | cre/report_verification.go:184-187 | An address text that is not hexadecimal is an error, and nothing is asked |
| DonReads.FirstCallFails | cre/report_verification.go:341-361 | A failed call, an error response and an unexpected response to the first call each give their error |
| DonReads.SecondCallFails | cre/report_verification.go:256-259 | The same for the second call |
| Registry.CacheKeyInjective | cre/report_verification.go:176-176 | Two fetches share a key exactly when chain selector and DON agree |
| Registry.FetchGivesFirstRead | cre/report_verification.go:176-180 | Over any run of fetches, a hit gives what the first successful fetch with that key read, a miss what it reads itself, and a key is missing exactly when no earlier read of it succeeded |
| Registry.OwnReadIff | cre/report_verification.go:175-311 | Whatever reading gives, a fetch gives its own read exactly when the earlier fetches for its chain and DON were the same fetch |
| Registry.OwnDirectReadIff | cre/report_verification.go:175-311 | On whatever chain, a fetch gives its direct read exactly when the earlier fetches for its chain and DON named the same registry address, or none that is hexadecimal |
| Registry.CacheRefinesDirectRead | cre/report_verification.go:175-311 | The sufficient half of that, for one chain |
| Registry.StaleAcrossRegistries | cre/report_verification.go:176-180 | For any two registries of one chain there is a chain on which every later fetch of the second succeeds with what the first said, while its direct read fails |
| Registry.AtMostTwoCallsPerKey | cre/report_verification.go:239-243 | The successful fetch that fills a key costs at most two chain calls, later ones none and give the same |
| Quorum.VerifySigs | cre/report_verification.go:418-486 | Success exactly when at least f+1 >= 0 authorised signers have signed the digest; the verdict, the list afterwards (the chosen entries in order, or unchanged on failure) and the signer ids, written on exactly the chosen objects |
| Quorum.HashIsDigest | cre/report_verification.go:426-428 | The digest is the hash of the raw report's hash followed by the context |
| Quorum.RecoverIff | cre/report_verification.go:439-459 | An entry recovers to a signer exactly when it has 65 bytes and the signer is recovered from it with 27 and 28 read as 0 and 1 and any other last byte as it is; it is unparsable exactly for another length |
| Quorum.LegacyVAlike | cre/report_verification.go:448-451 | Lists that differ only in 27 against 0 and 28 against 1 get the same verdict, chosen positions and ids |
| Quorum.QuorumOfSignatures | cre/report_verification.go:418-485 | The verdict by the signatures themselves: success exactly when 0 <= f+1 <= number of authorised signers that have signed the digest |
| Quorum.FailureExplained | cre/report_verification.go:422-481 | The count error exactly below f+1 entries; otherwise the skipped entries in order, each with the reason that is true of it |
| Quorum.QuorumIff | cre/report_verification.go:418-485 | For every f: success exactly when 0 <= f+1 <= number of distinct authorised signers recovered; panic exactly when f+1 is negative |
| Quorum.QuorumMonotone | cre/report_verification.go:434-485 | More signatures never turn success into failure, and the order does not matter |
| Quorum.KeptAreFirst | cre/report_verification.go:434-484 | The kept entries are f+1, in list order, of distinct authorised signers, each the first of its signer, with none left out before the last |
| Quorum.CorrectSignerKept | cre/report_verification.go:414-416 | Any set of at most f signers leaves a kept signer outside it |
| Quorum.VerifyAgain | cre/report_verification.go:418-485 | Verifying the trimmed list again with the same f and signers succeeds and keeps every entry |
| Quorum.SkipsAccountForAll | cre/report_verification.go:476-481 | When signatures are too few, skipped and accepted entries make up the whole list, so the skip list is not empty and the last fallback error is not reached |
| Quorum.AcceptSigs | cre/report_verification.go:430-474 | The loop stops at f+1 accepted; accepted entries, skip reasons and signer ids are those of the first occurrences among the entries looked at |
| Reports.Report.ParseHeader | cre/report_fields.go:61-73 | The cached header is what a fresh parse gives, before and after |
| Reports.Report.VerifySignaturesWithConfig | cre/report_verification.go:122-166 | The conclusion of trying the matching zones and then the accepted environments; on success the list is trimmed to the deciding DON's quorum with that DON's signer ids, whatever failed attempts wrote before, otherwise it is unchanged; the cache and the chain requests afterwards, by the candidates that were tried; every request is one for reading the DON at a zone of that DON or at an accepted environment |
| Reports.PlacesInOrder | cre/report_verification.go:129-135 | What is tried is exactly the zones of the header's DON in their order and then all accepted environments in theirs |
| Reports.VerifiedByConfigIff | cre/report_verification.go:122-166 | After any fetches, nil exactly when some zone of the report's DON, or some accepted environment, read directly, has f+1 signers that signed the digest, and reading none of these before it panics; not accepted exactly when there is no such zone or environment |
| Reports.ConcludeErrors | cre/report_verification.go:137-165 | A failure reports all read failures if there is one, else the signature failure of the last candidate |
| Reports.ReadErrorsInOrder | cre/report_verification.go:143-154 | The read failures are those of the unreadable candidates, each once and in order |
| Reports.Report.TryAll | cre/report_verification.go:141-165 | The loop gives the conclusion of the attempts, each made with the cache that the ones before left, and leaves cache and requests as the candidates up to the deciding one do |
| Reports.AcceptedIff | cre/report_verification.go:144-158 | A candidate accepts exactly when its DON can be read and the signatures reach its quorum |
| Reports.ConcludeIff | cre/report_verification.go:143-165 | The first accepting candidate decides; without one the verdict is a read failure exactly when some read failed |
| Reports.VerifiedIff | cre/report_verification.go:122-166 | After any fetches: nil exactly when some candidate, read directly, reaches quorum and none before it panics, and the first such decides; assumes only that no candidate's chain and DON were fetched from another registry before |
| Reports.EntriesAreFetched | cre/report_verification.go:143-159 | Over any sequence of verifications the cache is what the fetches of the candidates tried so far leave |
| Reports.EachVerifiedIff | cre/report_verification.go:122-166 | The same exact verdict for each verification of any sequence from an empty cache |
| Reports.ParseReportWithConfig | cre/report_verification.go:71-109 | The report built from the inputs; with verification skipped or a bad header nothing is fetched; otherwise the verdict is that of the attempts on the built list, and cache and chain requests are those of the candidates tried |
| Reports.ContextPrinted | cre/report_verification.go:77-83 | Digest and sequence number, written out, are the first 40 bytes of the context |
| Promises.Graph.Await | cre/promise.go:16-60 | Awaiting through the once-cells, with the order of runs and callback calls |
| Promises.ForceRefines | cre/promise.go:16-60 | From any reachable memory an await gives the direct result and keeps the memory sound |
| Promises.AwaitAllRefines | cre/promise.go:16-60 | Over any program of awaits on any graph: each gives what un-memoised evaluation gives, each computation runs at most once, each callback is called at most once and never after an error upstream |
| Runtimes.RuntimeHelpers.GetSource | cre/testutils/runtime.go:157-169 | The source of a mode is created once and then always the same object |
| Runtimes.RuntimeHelpers.Call | cre/testutils/runtime.go:173-186 | A known capability's response waits under the callback id; an unknown one is refused |
| Runtimes.RuntimeHelpers.Await | cre/testutils/runtime.go:190-214 | A response is handed out once; an unknown id and a response that is too large are errors; a drained id blocks |
| Runtimes.RuntimeHelpers.GetSecrets | cre/testutils/runtime.go:218-252 | The loop stores one reply for each request under the id |
| Runtimes.RuntimeHelpers.AwaitSecrets | cre/testutils/runtime.go:256-271 | The stored replies of the id, again on every await, or an error for an unknown id |
| Runtimes.RuntimeBase.CallCapability | internal/sdkimpl/runtime.go:68-106 | New state of runtime, host and request, and the promise: nil request, id used before the mode check, refusal, or a lazy await of that id |
| Runtimes.RuntimeBase.Random | internal/sdkimpl/runtime.go:108-122 | The mode error, or the source of the runtime's mode attached once |
| Runtimes.RuntimeBase.DrawNumber | internal/sdkimpl/runtime.go:244-271 | Panic on a mode error or without a source; else the number and the new history, two draws for a 64-bit number without a 64-bit source |
| Modes.JoinHalves | internal/sdkimpl/runtime.go:262-262 | The number joined from two draws has the top 32 bits of the first as its lower half and the low 32 bits of the second as its upper half |
| Runtimes.Runtime.GetSecrets | internal/sdkimpl/runtime.go:165-215 | Mode check first, no id for an empty list, default namespace filled in, then a lazy await that expects one reply for each request |
| Runtimes.NormaliseAll | internal/sdkimpl/runtime.go:137-150 | The loop keeps every request and fills in the default namespace |
| Runtimes.CollectSecrets | internal/sdkimpl/runtime.go:197-213 | The replies become the secrets in order, or the error with all missing ones, or the count error |
| Runtimes.Runtime.EnterNodeMode | internal/sdkimpl/runtime.go:222-230 | The node runtime is a copy of the DON's, mode error included, with the node counter and no source; the DON is disabled |
| Runtimes.Runtime.LeaveNodeMode | internal/sdkimpl/runtime.go:232-235 | The node runtime is disabled, the DON enabled, the node counter handed back |
| Runtimes.Runtime.Simple | internal_testing/capabilities/consensus/consensus_sdk_gen.go:26-37 | One DON call when the observation can be marshalled, else only an error promise |
| Runtimes.TeeRuntime.CallCapability | internal/sdkimpl/runtime.go:291-293 | A call through the TEE runtime is a call on the DON runtime's own state |
| Runtimes.TeeRuntime.Random | internal/sdkimpl/runtime.go:295-297 | The same for random sources |
| Runtimes.TeeRuntime.GetSecrets | internal/sdkimpl/runtime.go:311-313 | The same for secrets |
| Runtimes.RuntimePromise.Await | internal/sdkimpl/runtime.go:90-105 | The host is asked on the first await only; the result is remembered |
| Workflows.Workflow.Do | internal/sdkimpl/runtime.go:68-271 | Each operation takes the objects through exactly one step of the machine, with its output |
| Workflows.Workflow.Execute | internal/sdkimpl/runtime.go:68-271 | Any list of operations on fresh objects ends in the machine's state and gives its outputs |
| Exclusion.ExclusionIff | internal/sdkimpl/runtime.go:221-240 | At every point at most one of the DON and all node runtimes is enabled, of the host's mode, and none after its callback: exactly when no inner callback returns while another runs |
| Exclusion.ThroughInHostMode | internal/sdkimpl/runtime.go:81-83 | A call, secrets request or draw that gets through uses an enabled runtime of the host's current mode |
| Exclusion.SentAlwaysInMode | internal/sdkimpl/runtime.go:229-237 | Every request that reaches the host, consensus included, comes from a runtime of the host's mode |
| Exclusion.RetiredForever | internal/sdkimpl/runtime.go:233-233 | In any run, nested or not, a node runtime is disabled from the return of its callback on |
| Exclusion.RefusalSaysWhy | internal/sdkimpl/runtime.go:229-234 | In any run a disabled DON refuses as called in node mode, a retired node runtime as called in DON mode |
| Nesting.DonEnabledIff | internal/sdkimpl/runtime.go:229-234 | In any run the DON is enabled outside all callbacks, and inside one exactly when the last entry or return was a return |
| Exclusion.NestedCallInDonMode | internal/sdkimpl/runtime.go:221-236 | A concrete nested run lets a node call through while the host is in DON mode |
| CallbackIds.DonIdsIncrease | internal/sdkimpl/runtime.go:47-55 | In any run, nested or not, with fewer than 2^31 uses of each counter: DON ids are positive and increase, node ids are negative |
| CallbackIds.IdsDistinct | internal/sdkimpl/runtime.go:47-55 | When besides no callback starts inside a running one from which an inner callback has returned, all ids sent to the host are distinct, and node ids decrease over all node runtimes |
| CallbackIds.ReentryCollides | internal/sdkimpl/runtime.go:221-236 | Any list of entries and returns with such a reentry can be filled with two node calls that send one id twice, whatever the host does |
| CallbackIds.IdsDistinctIff | internal/sdkimpl/runtime.go:221-236 | With fewer than 2^31 uses of each counter, every run over a list of entries and returns sends distinct ids exactly when the list has no reentry |
| CallbackIds.NestedIdsCollide | internal/sdkimpl/runtime.go:226-235 | A concrete nested run gives one id to two requests |
| Isolation.DonNonInterference | internal/sdkimpl/runtime.go:221-240 | Two runs with the same DON-level operations send the same DON ids and get the same DON random results, whatever node callbacks do, whatever is awaited and whatever the host replies |
| Isolation.OneSourcePerMode | cre/wasm/runtime.go:44-59 | Over any run each mode has one source that is never restarted: later node runtimes draw on from where earlier ones left it |
| Isolation.RandAttaches | internal/sdkimpl/runtime.go:113-119 | Asking for randomness attaches the source of the runtime's own mode, wherever it stands |
| Isolation.DisabledDoesNotDraw | internal/sdkimpl/runtime.go:244-271 | A disabled runtime refuses to be asked, with its mode error, and panics when drawn from |
| Isolation.ReseedThenDraw | internal/sdkimpl/runtime.go:265-271 | A reseed reaches the source with its seed: the next number is the one after it |
| Isolation.Uint64Drawn | internal/sdkimpl/runtime.go:252-263 | A 64-bit number comes from a 64-bit source, or from two draws as in the code |
| Routing.EachYieldsOwnReply | internal/sdkimpl/runtime.go:90-105 | In a run without reentry every await of a promise, in any order and repeated, gives the reply or error due to the operation that made it, and never blocks |
| Routing.SecretsYield | internal/sdkimpl/runtime.go:137-215 | Over a run, awaiting a request for secrets yields for each entry, in order, the stored secret of that id in its namespace, or in main when it names none, exactly when all are stored; else an error with exactly the missing ones |
| Routing.ReentryMisroutes | internal/sdkimpl/runtime.go:226-235 | Any list of entries and returns with a reentry can be filled with two calls and their awaits so that a promise misses its reply |
| Routing.RoutedIff | internal/sdkimpl/runtime.go:221-236 | Over a list of entries and returns every await yields its own reply in every run exactly when the list has no reentry, on a host that accepts the two calls |
| Routing.AwaitedOnce | cre/promise.go:16-18 | The host is asked to await each id at most once |
| Routing.AllSecretsOrError | internal/sdkimpl/runtime.go:193-213 | Secrets come all together and in order exactly when every one is found; otherwise the error lists exactly the missing ones |
| Routing.NestedRepliesMixUp | internal/sdkimpl/runtime.go:226-235 | In the colliding run the first promise yields the second request's reply and awaiting the second blocks |
| GoTypes.IdenticalOneLevel | cre/consensus_aggregators.go:222-255 | One level of the check: a permitted shape, and every part passes one level deeper |
| GoTypes.IdenticalIffWalks | cre/consensus_aggregators.go:222-255 | A type passes at a depth exactly when every walk through map values, elements, exported fields and pointers (stopping at *big.Int) stays below depth 100 and meets only permitted shapes |
| GoTypes.RecursiveTypeRejected | cre/consensus_aggregators.go:226-228 | A type from which a cycle is reachable is rejected |
| GoTypes.ShallowerAccepted | cre/consensus_aggregators.go:222-255 | Acceptance at a depth gives acceptance at any smaller one |
| Tags.ParseConsensusTagDepth | cre/consensus_aggregators.go:106-201 | The loop that fills the descriptor map computes the parse, with every error in the order of the code |
| Tags.ConsensusAggregationFromTags | cre/consensus_aggregators.go:78-86 | A nil type is an error, any other the parse from depth 0 |
| Tags.NameRule | cre/consensus_aggregators.go:141-145 | The name is the mapstructure tag up to its first comma, or the field's name when that is empty |
| Tags.SquashRule | cre/consensus_aggregators.go:147-147 | A field is squashed exactly when squash stands between the first comma and the next |
| Tags.LeafRuleIff | cre/consensus_aggregators.go:159-184 | Each of the four aggregations is for exactly its tag, on exactly the types the tag is for |
| Tags.KeyMeans | cre/consensus_aggregators.go:122-194 | On success a key holds what the last field that gives it puts there: the inner value of a squashed field, the descriptor of a nested one, or the aggregation of its tag |
| Tags.KeyGiven | cre/consensus_aggregators.go:122-194 | Every key is given by some field |
| Tags.FailureBlames | cre/consensus_aggregators.go:114-193 | A failure is for no struct, too deep a nesting, or the first field at fault, with the error that fits it |
| Tags.ParseIffWalks | cre/consensus_aggregators.go:106-201 | The parse succeeds exactly when every walk through nested and squashed fields stays below the depth limit and meets only structs whose fields are all acceptable |
| Tags.RecursiveStructRejected | cre/consensus_aggregators.go:118-120 | A struct from which nested or squashed fields reach a cycle is rejected |
| Tags.KeysComplete | cre/consensus_aggregators.go:141-190 | Every exported, non-ignored field has its name as a key, a squashed one its inner names |
| Tags.LastProvider | cre/consensus_aggregators.go:153-190 | The value under a key is the one of the last field that gives the key |
| Tags.LeavesSound | cre/consensus_aggregators.go:122-194 | Every aggregation leaf comes from a chain of exported, tagged fields with those names, each the last that gives its key, ending in a field with the leaf's tag on a type it is for |
| Tags.LeavesComplete | cre/consensus_aggregators.go:122-194 | Every such chain has its leaf at its path |
| Tags.PointerToSlice | cre/consensus_aggregators.go:159-184 | A pointer to a slice is accepted by common_prefix just as the slice is, and never by common_suffix |
| Projection.ClearIgnoredFields | cre/runtime.go:269-295 | The in-place deletion, visiting the entries in any order, turns the tree of map objects into its projection and touches nothing else |
| Projection.ProjectionIsCanonical | cre/runtime.go:269-295 | Two values are equal after clearing exactly when they agree on every path the descriptor describes |
| Projection.ClearIdempotent | cre/runtime.go:269-295 | Clearing again changes nothing |
| Projection.ClearOnlyDeletes | cre/runtime.go:283-292 | No path is added, and what an aggregation leaf describes stays as it was |
| Projection.Observe | cre/runtime.go:211-247 | The inputs sent to consensus: the error cases, and default and observation both projected |
| Projection.SentIsProjected | cre/runtime.go:216-247 | Default and observation are sent with what the descriptor shows of them as it was, its leaves untouched, and nothing undescribed |
| Projection.ErrorsAreSent | cre/runtime.go:211-242 | An invalid aggregation, an unusable default and a failed callback each give their error as the observation |
| Projection.SameInputsIffAgree | cre/runtime.go:211-247 | Two nodes send the same inputs exactly when their results agree on every described path |

## Left out

- Keccak, ECDSA recovery and address derivation: two arbitrary functions.
- Wrapping and unwrapping of values, `anypb`, protobuf reflection and the marshalled size of a response: the model starts from wrapped values, and a response is too large by an arbitrary predicate.
- WebAssembly imports, pointers, logging, the clock and process exit; the WASM host's buffers. Its `GetSource` behaves like the one modelled.
- The runner and the execution handler, TEE constraints, capability error tables, bindings, generators and generated stubs.
- Locks and `sync.Map`: the runtime is single-threaded by design, so this is sequential state.
- Error texts: only the kinds are kept.
- Runtimes.RuntimeHelpers.Await: takes one id, the only way the SDK calls it, and has no cancelled test context.
- Replies.DecodeNodesReply: does not model the allocation that the claimed count asks for as a map capacity.
- Promises.Graph.Await: promises are listed so that each awaits only earlier ones; a promise that awaits itself is not expressible.
- Projection.ClearIgnoredFields: map objects form a tree; a map shared by two entries is not modelled.
- Workflows.Workflow.Do: a panic leaves the state as it is, as when it is recovered at the call; one that unwinds out of a callback is not modelled. Random sources are not replaced during a run, and nil entries in lists of secrets or signatures do not occur.
- CallbackIds.IdsDistinct: says nothing about runs in which a counter wraps around after 2^31 uses.
- GetSecret, GenerateReport and the unwrapping of consensus results: one `Then` over the modelled promises.
