# Verified models of go-coursera

A Dafny model of the concurrent, stateful and code-generating programs of the course repository, with
proofs of what they guarantee. Check it with `dafny verify dfyconfig.toml`. Nothing here runs the
original programs.

## What is modelled

- **Hashing pipeline** (`HW/hw2_signer`): `Pipeline`, `PipelineValues`, `PipelineInvariant`,
  `PipelineProgress`, `PipelineOutcomes`, `PipelineSchedules`, `PipelineResult`. A transition system with
  one program counter per goroutine, one-slot channels, the six-slot channel of MultiHash, the mutex `su`
  and the compare-and-swap flag. A schedule is any sequence of steps. MD5 and CRC32 are arbitrary functions. The chain of jobs is any
  list of SingleHash, MultiHash and any sequential deterministic jobs: such a job sends something first,
  then something after each value it receives, returns when its input ends or when it wants no more, and
  sends something before it does. Sources, CombineResults and the collectors of the tests are of this
  kind. Termination, freedom from deadlock and what complete runs compute are settled for all of these;
  that it does not depend on the schedule, for chains in which what a job takes and sends does not depend
  on an order of arrival that the hashing stages leave open (`PipelineValues.Determined`). The values on
  the channels are strings (SingleHash turns its values into strings first).
- **Tag cache** (`tcache/cache.go`): `TagCache` is the class with its loops over an atomic key-value
  store, `TagCacheCoherence` runs it beside the source it speeds up. The environment increments a tag
  of every source it changes, versions of a tag never come back, and cache keys, tags and locks do not
  share names. `TagCacheClock` derives the second of these from the clock. `TagCacheLate` is about
  rebuilds that are interleaved with changes of the source.
- **Batch protocol and discovery** (`grpc_lb_sd/client-lite`): `Balancer` is the three-channel
  protocol as a transition system, `Discovery` the set-diff loop and the composition of the two.
- **Broadcast and statistics** (`HW/hw7_microservice`): `Microservice`, `MicroserviceProofs`. Calls,
  the mutex, subscribers and tickers interleave freely. Regular expressions are an arbitrary relation.
- **Decoder** (`HW/hw8_i2s`): `I2s`, `I2sProofs`, and `Binary64` for the integers: JSON numbers are read
  as binary64 (section 6 of RFC 8259), to the nearest number, ties to even. Which field json.Marshal
  writes under which key follows the documented rules of encoding/json for json tags.
- **Tree printer** (`HW/hw1_tree`): `TreePrinter`, `TreeProofs`.
- **Validator generator** (`HW/hw5_codegen`): `TagClauses` and `TagRecognition` go from the text of a
  tag to the template data, `Validator` and `ValidatorProofs` from there to the emitted statements and
  their meaning, `ValidatorReading` is about the form that is not filled yet, `ValidatorAcceptance` about
  what is accepted and refused. strings.ToLower, strconv.Atoi and the value of a pasted integer literal
  are arbitrary functions (the literal 0 being 0).
- **Binary unpacking** (`lectures/C1/codegen`, `lectures/C1/reflect`): `Unpack`, `UnpackProofs`.
- **Search** (`HW/hw3_bench`): `Search`.
- **SQL binding** (`HW/hw6_db_explorer`): `SqlBinding`, and `SqlUpdate` for what the statement of a POST
  does to the rows. How the database compares a key with an id, which values a column takes and what it
  stores for them are arbitrary functions.
- **Auction** (`lectures/C1/async/context.go`): `Auction`.
- `Text` holds what several of them share: joining, sorting and printing of strings.

## Where the code differs from what one would expect

- `HW/hw5_codegen/handlers_gen/codegen.go:153` compares with `<=`, so the maximum itself is refused
  although the message and the documentation speak of an inclusive maximum
  (`ValidatorAcceptance.MaximumIsRefused`). The model follows the code.
- `HW/hw5_codegen/handlers_gen/codegen.go:125` reads integers with `r.Form.Get`, which sees nothing
  until some `r.FormValue` has filled the form. If the first field is an integer it is read as empty
  and every request is refused (`ValidatorReading.LeadingNumberIsRefused`); otherwise the emitted
  function means what the clauses say (`ValidatorReading.MeansClausesIffStringFirst`).
- Two fields with an enum clause make the emitted function declare `valid` twice
  (`ValidatorAcceptance.ValidDeclaredOnce`), and a string field `A` beside a field `ALen` makes the emitted
  unpacker declare `ALenRaw` twice (`UnpackProofs.DeclaredOnceIffNoClash`). Go compiles neither.
- A missing NOT NULL column of a numeric type is filled with `""` and then refused as being no number
  (`SqlBinding.PutRefusals`). A null for an unknown column dereferences nil, in some or in every order
  of the map (`SqlBinding.SomeOrderDereferencesNil`, `SqlBinding.EveryOrderDereferencesNil`).
- `rebuild` of the cache reads the tags after the callback, so an interleaved change of the source can
  be served as current (`TagCacheLate.StaleRun`); a tag that is lost before the clock has gone past its
  version has the same effect (`TagCacheClock.ReuseBreaksCoherence`, `TagCacheClock.UnpacedLossIsStale`).
- A nil slice is encoded as null and not decoded again, and an integer of more than 53 significant bits
  comes back as another one (`I2sProofs.RoundTrip`, `I2sProofs.FirstLostInteger`). A field that a json tag
  renames is not found (`I2sProofs.RenamedIsRefused`).
- `HW/hw8_i2s/i2s.go:33` sets a field by its kind: for an unexported field, or one of a type defined over
  int, i2s panics on data that conforms (`I2sProofs.PanicsIffNotSettable`). So does
  `lectures/C1/reflect/reflect_2.go:34` (`UnpackProofs.ReflectStops`).
- The reflective unpacker and the generator look at different skip tags, and the generator takes only the
  first name of a declaration like `A, B int`; where they agree in this, the generated code fills
  unexported fields and the reflective one panics (`UnpackProofs.AgreeIffTagsAgree`).
- A POST to a table with several primary columns compares the id with the first of them and changes every
  row that has it (`SqlUpdate.AddressesOneIffOneKeyColumn`); without a primary column, or with an empty
  body, its statement is not SQL (`SqlUpdate.PostChangesBodyColumns`).
- FastSearch ignores MSIE in a browser that contains Android (`Search.SameOutputIff`).

## Model

| member | source | states |
|---|---|---|
| Text.SortedIsUnique | HW/hw2_signer/signer.go:78-79 | two sorted slices with the same strings are equal, so sort.Strings has only one possible outcome and the joined text is determined |
| Text.SortAscends | HW/hw2_signer/signer.go:78-79 | what sort.Strings leaves has the same strings, and of two of them the first is a beginning of the second or has the smaller character where they first differ |
| Text.JoinConcat | HW/hw2_signer/signer.go:79 | joining puts exactly one separator between parts, in their order |
| PipelineResult.SignerResult | HW/hw2_signer/signer.go:14-84 | for every input, whatever jobs follow, and every schedule CombineResults sends nothing before its input is complete and then exactly one text, which it has sent when it has returned: for each item crc32 of 0 to 5 before crc32(item)~crc32(md5(item)), ascending, with underscores between |
| PipelineResult.SignerCollected | HW/hw2_signer/main_test.go:101-122 | the chain of the test, whose last job receives one value and returns: every run that cannot go on is complete, and that job has received exactly that text |
| PipelineResult.CompleteRun | HW/hw2_signer/signer.go:14-80 | in a complete run of a chain whose jobs do not look at an order that is left open, those that return early included, every channel has carried, as a multiset, what the jobs before it composed without goroutines send, and that very sequence where the order is fixed |
| PipelineResult.ScheduleIndependence | HW/hw2_signer/signer.go:14-80 | of a chain whose jobs do not look at an order that is left open, two complete runs send the same values with the same multiplicity on every channel, and the same sequence where the order is fixed: until a hashing stage lets values overtake each other, and again behind CombineResults |
| PipelineResult.OrderMatters | HW/hw2_signer/signer.go:14-42 | that is needed: behind SingleHash a job that sends on only the first value it receives makes a chain that always completes and of which two complete runs carry different values |
| PipelineSchedules.CompleteRunsAreOutcomes | HW/hw2_signer/signer.go:14-80 | for any jobs: what the channels have carried in complete runs is exactly what the jobs compute one after the other without goroutines, the hashing ones in any order, with at most one value left behind by each and by the chain |
| PipelineResult.FreeFlow | HW/hw2_signer/extra_test.go:25-47 | the chain of a source, a job that sends something for each value and a collector always completes, and the collector has received what was made of the items in their order |
| PipelineResult.StageOutput | HW/hw2_signer/signer.go:14-80 | a job that has returned has sent exactly what it makes of what came into its input, a job without goroutines in order, and the job before it has returned or it has stopped of its own accord |
| PipelineResult.Md5Exclusion | HW/hw2_signer/signer.go:90-94 | in every reachable state of every run: no send on a closed channel, no failed CAS, the overheat flag up only while its setter holds su, one holder at most, and the send made while holding su finds its slot empty |
| PipelineResult.LockedOncePerInput | HW/hw2_signer/common.go:23-52 | when ExecutePipeline returns, exactly the values that reached a SingleHash have been locked and unlocked for, each once |
| PipelineProgress.EveryRunEnds | HW/hw2_signer/signer.go:14-28 | for any jobs no schedule is longer than a number fixed by them; a run that cannot continue has all jobs returned exactly when what its channels carry leaves at most one value unread by each job and by the chain |
| PipelineSchedules.EveryRunCompletesIff | HW/hw2_signer/signer.go:14-28 | for any jobs every run that cannot continue has all jobs returned, whatever the schedule, exactly when this is so of everything the jobs can compute in any order of arrival |
| PipelineSchedules.ConsumersComplete | HW/hw2_signer/signer.go:14-28 | in particular when every job behind the first reads until its input ends and the last one sends at most one value on any input |
| PipelineResult.DeterminedRunEnds | HW/hw2_signer/signer.go:14-28 | if the jobs do not look at an order that is left open, it is enough to look at what the jobs compute one after the other |
| PipelineProgress.CanComplete | HW/hw2_signer/signer.go:14-28 | if nothing the jobs can compute leaves more behind, then from every state a run can reach some schedule leads to wg.Wait returning |
| PipelineProgress.NoDeadlock | HW/hw2_signer/signer.go:30-94 | for any jobs: as long as a job has not returned and what the channels carry leaves at most one value behind, some goroutine can step: a stage, a worker, or the holder of su |
| PipelineProgress.StuckMeansUnread | HW/hw2_signer/signer.go:14-28 | for any jobs: where nothing can step and not all have returned, some job waits to send on a full channel whose receiver has returned or does not exist |
| PipelineSchedules.BlockedRun | HW/hw2_signer/signer.go:14-28 | and such a job waits for ever, whatever the others do |
| PipelineProgress.StepDecreases | HW/hw2_signer/signer.go:30-94 | for any jobs every step of every goroutine lowers a measure of what can still come through every channel and is still to be done for each value |
| PipelineResult.LogWithinExpected | HW/hw2_signer/signer.go:14-80 | if the jobs before it do not look at an order that is left open, a channel has at any moment of any run carried part of what they are expected to send, and all of it when it is closed; in its order where that is fixed |
| PipelineProgress.SomeTrack | HW/hw2_signer/signer.go:14-80 | for any jobs the channels carry, at any moment of any run, a beginning of something the jobs compute one after the other, and all of it when they are closed |
| PipelineValues.FanIsSettled | HW/hw2_signer/signer.go:30-66 | what the hashing stages send depends, as a multiset, only on the multiset of what they receive |
| PipelineValues.CombineIsSettled | HW/hw2_signer/signer.go:70-80 | what CombineResults sends does not depend on the order in which the values arrive |
| PipelineValues.EachIsSettled | HW/hw2_signer/extra_test.go:30-47 | nor does what a job sends that deals with value after value, as a multiset, wherever it stands in a chain |
| PipelineInvariant.RunKeepsInv | HW/hw2_signer/signer.go:14-94 | conservation through every stage and channel, the slot discipline of the private channels and the ownership of su hold along every run |
| PipelineInvariant.CollectStep | HW/hw2_signer/signer.go:56-66 | whatever the order in which the six partial hashes arrive, result is complete and in th order when the sixth has been received |
| TagCache.TCache.TGet | lectures/C2W2/database/tcache/cache.go:29-133 | TGet, with its bounded lock loops, answers and leaves the store as the specification says; a hit changes nothing, a callback of another type stores nothing and is answered with the mismatch, a value that is no item and a tag that is no number are errors that change nothing |
| TagCache.TCache.IsTagsValid | lectures/C2W2/database/tcache/cache.go:69-88 | a snapshot is valid exactly when it equals the versions now stored under its tags; a value that is no number is an error |
| TagCache.TCache.GetCurrentItemTags | lectures/C2W2/database/tcache/cache.go:183-213 | missing tags are created with the present time, existing ones read, and a value that is no number stops the loop with the tags created so far left behind |
| TagCacheCoherence.TagLoopSnapshots | lectures/C2W2/database/tcache/cache.go:183-213 | when the tags hold numbers the loop succeeds, leaves a version under every tag and returns exactly those versions |
| TagCacheCoherence.Coherence | lectures/C2W2/database/tcache/cache.go:29-133 | after any run of TGet calls, also such whose callback fails, increments that accompany changes of the source, expiries and clock ticks in which versions are not reused, TGet returns what the callback would return now |
| TagCacheCoherence.FailedCall | lectures/C2W2/database/tcache/cache.go:96-107 | a TGet whose callback gives another type answers from a valid item and otherwise with the mismatch, and but for the lock, which is gone, changes nothing |
| TagCacheCoherence.BadTagStoresNothing | lectures/C2W2/database/tcache/cache.go:96-124 | a rebuild that comes upon a tag that is no number stores no item, creates at most tags that were missing, and gives the lock back |
| TagCacheCoherence.UntouchedIsHit | lectures/C2W2/database/tcache/cache.go:61-64 | after a TGet, as long as the item and its tags do not expire and no tag is incremented, the next TGet is a hit with the same data and writes nothing |
| TagCacheLate.LateIsCoherent | lectures/C2W2/database/tcache/cache.go:96-124 | rebuild reads the tags after the callback: if every tag of the source was there when the callback returned and has the same version when the tags are read, then whatever happened in between the stored item is what the source says |
| TagCacheLate.LateRunIsCoherent | lectures/C2W2/database/tcache/cache.go:29-133 | a run from an empty cache with any number of late stores, each vouched for in this way, is coherent |
| TagCacheLate.EveryTagIsNeeded | lectures/C2W2/database/tcache/cache.go:99-109 | no tag can be left out of that: with one tag missing, or incremented in between, some change of the source makes the stored item stale |
| TagCacheLate.LateIsServed | lectures/C2W2/database/tcache/cache.go:61-64 | what a late store has put there is served until the item or one of its tags expires or is incremented, whatever the source says |
| TagCacheLate.StaleRun | lectures/C2W2/database/tcache/cache.go:96-124 | a run from an empty cache in which the source changes between callback and store, and TGet answers the old data, then and after any time |
| TagCacheClock.PacedIsFresh | lectures/C2W2/database/tcache/cache.go:188-203 | tags that are created with the clock and not lost before the clock has gone past their version never take a version twice |
| TagCacheClock.CoherenceByClock | lectures/C2W2/database/tcache/cache.go:29-133 | coherence of every such run, nothing else being assumed of versions |
| TagCacheClock.UnpacedLossIsStale | lectures/C2W2/database/tcache/cache.go:193-203 | when a tag that another source has is lost before the clock has gone past the version an item has of it, the item being valid in its other tags, some continuation makes the cache answer what the source no longer says |
| TagCacheClock.ReuseBreaksCoherence | lectures/C2W2/database/tcache/cache.go:193-203 | a run that answers with old data because a tag lost and created again in one second takes the same version twice |
| Balancer.Framing | lectures/C2W3/microservices/grpc_lb_sd/client-lite/balancer.go:21-69 | the batches Next returns are the first of the initial address followed by the injected ones, each whole and in order, although lengths and updates travel separately |
| Balancer.Acknowledgements | lectures/C2W3/microservices/grpc_lb_sd/client-lite/balancer.go:41-67 | completed Next calls equal returned injects plus the receipt of the helper; the injector is at most one batch ahead; Next never waits on readDone without a receiver |
| Balancer.EverythingIsDelivered | lectures/C2W3/microservices/grpc_lb_sd/client-lite/balancer.go:21-69 | every run has a bounded length and, when no step is left, all batches have been returned and all injects have ended |
| Discovery.ServiceDiscovery.Tick | lectures/C2W3/microservices/grpc_lb_sd/client-lite/client_lb.go:107-136 | in any map order each Delete names a present and each Add an absent address, the updates are the difference of the snapshots each once, and currAddrs becomes the new snapshot |
| Discovery.ServiceDiscovery.Run | lectures/C2W3/microservices/grpc_lb_sd/client-lite/client_lb.go:95-141 | folding everything injected over the initial set gives the latest snapshot, which is currAddrs; no empty batch is injected |
| Discovery.Serve | lectures/C2W3/microservices/grpc_lb_sd/client-lite/client_lb.go:40-141 | from the first server through Resolve, the initial injection and the loop over the snapshots: whatever the interleaving, once everything has been read what Next returned folds to the addresses of the latest snapshot |
| Discovery.DeletesAreLegal | lectures/C2W3/microservices/grpc_lb_sd/client-lite/client_lb.go:116-125 | deleting different present addresses one after the other is legal at every point and leaves the rest |
| Microservice.CheckAuth | HW/hw7_microservice/service.go:129-139 | access is granted exactly when there is a consumer, it is in the list, and one of its patterns matches the method |
| Microservice.Contains | HW/hw7_microservice/service.go:70-78 | true exactly when some pattern matches |
| Microservice.CountStatistic | HW/hw7_microservice/admin_service.go:98-122 | the two maps count every method and every consumer of the events |
| MicroserviceProofs.TotalOrder | HW/hw7_microservice/service.go:98-127 | in every run a subscriber has received the contiguous part of one global log from its registration on, lacking at most the event being delivered |
| MicroserviceProofs.SubscribersAreCalls | HW/hw7_microservice/admin_service.go:40-66 | the streams belong one to one, in the order of registration, to the calls that have subscribed, a call of Logging having a log stream and one of Statistics one of statistics, and each was registered behind the event of its own call |
| MicroserviceProofs.LogStream | HW/hw7_microservice/admin_service.go:46-60 | a Logging call has sent its client the events from its registration on in the order of the log, lacking at most the one in its hand and the one being delivered |
| MicroserviceProofs.CallsAreArrivals | HW/hw7_microservice/service.go:80-127 | no call is lost or changed: the calls of a run are those that came in, in order |
| MicroserviceProofs.WaitingIsServed | HW/hw7_microservice/service.go:98-127 | from every state in which an authorised call waits some schedule logs its event, returns, and lets a streaming call subscribe |
| MicroserviceProofs.LogIsAuthorised | HW/hw7_microservice/service.go:98-113 | the log has one event per call that passed the mutex, all of them authorised, with the consumer that was checked; the index into the consumers is always in range |
| MicroserviceProofs.HolderNeverStuck | HW/hw7_microservice/service.go:115-118 | the holder of the mutex can deliver, unlock, or waits for a subscriber that can step |
| MicroserviceProofs.DeliveriesAreBounded | HW/hw7_microservice/service.go:104-127 | until the holder unlocks, whatever else happens, nobody subscribes and it delivers once to each subscriber, and no more often than there are subscribers |
| MicroserviceProofs.DeliveryFinishes | HW/hw7_microservice/service.go:104-127 | from every state with the mutex held at most two steps for each subscriber still to be served free it |
| MicroserviceProofs.StatisticsConserve | HW/hw7_microservice/admin_service.go:62-96 | for every name the statistics sent so far plus what is pending count exactly the subscriber's part of the global log |
| MicroserviceProofs.StatisticsBalance | HW/hw7_microservice/admin_service.go:80-96 | in every statistic sent the methods and the consumers add up to the number of events of its interval, and the intervals tile what was received |
| I2s.Fill | HW/hw8_i2s/i2s.go:8-72 | the loops over fields and elements, with their recursion, write and end -- with nil, an error or a panic -- as the decoding function says |
| I2sProofs.SucceedsIffConforms | HW/hw8_i2s/i2s.go:8-72 | for all data and all types, recursive slices included, i2s succeeds exactly when the data conforms to the type and every field it leads to can be set, and panics exactly when the first part not taken is one that reflect cannot set; the result keeps its type |
| I2sProofs.PanicsIffNotSettable | HW/hw8_i2s/i2s.go:26-49 | data that conforms makes it panic exactly when some field it leads to is unexported or of a type defined over int; where all can be set no data does |
| I2sProofs.SuccessReads | HW/hw8_i2s/i2s.go:8-72 | it succeeds with a value exactly when every field has what the member of its name says, an int the number cut off towards zero, and every element what its index says, whatever was there before |
| I2sProofs.TruncIsIntegerPart | HW/hw8_i2s/i2s.go:28-33 | the conversion to int lies between zero and the number and less than 1 away from it |
| I2sProofs.ScalarSlices | HW/hw8_i2s/i2s.go:55-69 | a slice of scalars is accepted only when the data is an empty array |
| I2sProofs.RoundTrip | HW/hw8_i2s/i2s.go:8-72 | decoding the JSON image of a value, written by the rules of json tags, gives the value back exactly when it is built of structures and non-nil slices with scalars only as fields, its integers are exact in binary64, its fields can be set, and each is written under its own name, or another under that name whose value says the same; for exported fields without tags the names are no condition (UntaggedSupported) |
| I2sProofs.ImageSays | HW/hw8_i2s/i2s.go:8-72 | the image of one value reads as another exactly when the two correspond: numbers up to rounding, texts, truth values, structures by the names under which fields are written, slices by position |
| I2sProofs.RenamedIsRefused | HW/hw8_i2s/i2s.go:24-25 | a field renamed by its tag is looked up under its Go name and refused |
| Binary64.RoundsToItselfIffExact | HW/hw8_i2s/i2s.go:27-33 | an integer that is read as a float64, the nearest one, ties to even, comes back exactly when it has at most 53 significant bits |
| Binary64.RoundIsNearest | HW/hw8_i2s/i2s.go:27-33 | the float64 that is read is the nearest there is |
| Binary64.RoundIsExact | HW/hw8_i2s/i2s.go:27-33 | what is read is itself a float64 |
| Binary64.TiesToEven | HW/hw8_i2s/i2s.go:27-33 | of two that are equally near the one with the even significand is read |
| Binary64.SmallIsExact | HW/hw8_i2s/i2s.go:27-33 | every integer up to 2^53 in absolute value is exact |
| I2sProofs.FirstLostInteger | HW/hw8_i2s/i2s.go:27-33 | 2^53 + 1 in a field comes back as 2^53 without an error |
| I2sProofs.StructWrites | HW/hw8_i2s/i2s.go:22-54 | a field is written exactly when all fields before it were taken; later fields, and the one that is not taken if it is a scalar, are as they were |
| I2sProofs.SliceWrites | HW/hw8_i2s/i2s.go:55-66 | a slice becomes a new one of the length of the data whose elements after the first that is not taken are zero, down to their fields |
| I2sProofs.SuccessOverwrites | HW/hw8_i2s/i2s.go:17-71 | on success nothing of the previous content is left |
| TreePrinter.Filter | HW/hw1_tree/main.go:94-102 | filtering in place gives the filtered sequence although result and source share the array, and leaves the rest of the array alone |
| TreePrinter.ReadDir | HW/hw1_tree/main.go:79-92 | all entries, or only the directories, in order |
| TreePrinter.PrintTree | HW/hw1_tree/main.go:42-77 | appends exactly the lines of the entry and of everything under it |
| TreePrinter.DirTree | HW/hw1_tree/main.go:28-40 | appends the listing of the whole tree |
| TreeProofs.ReadOutput | HW/hw1_tree/main.go:28-77 | from the text of any tree whose names have no newline the labelled forest is read back |
| TreeProofs.OutputIsListing | HW/hw1_tree/main.go:28-77 | the output is, line by line, the listing of the tree: indents of tabs and bars by which directories were last, the branch, the name, and the size of a file or (empty) |
| TreeProofs.VisibleConcat | HW/hw1_tree/main.go:79-102 | what is listed of a directory is all of it, or its directories, in their order |
| Text.ItoaSays | HW/hw1_tree/main.go:51 | a size is printed as its decimal numeral without a zero in front |
| TreeProofs.OutputIsUnambiguous | HW/hw1_tree/main.go:28-77 | two trees with newline-free names print alike only if they show the same labels and nesting |
| TreeProofs.DirectoriesOnly | HW/hw1_tree/main.go:79-92 | without -f the output is the full output of the tree pruned of files at every level |
| TagClauses.ParseTag | HW/hw5_codegen/handlers_gen/codegen.go:236-290 | the clause loop computes the fold of the six pattern tests over the comma-separated values |
| TagRecognition.FindIsLeftmost | HW/hw5_codegen/handlers_gen/codegen.go:248-289 | a pattern key(.+) captures what follows the leftmost place where the key stands with something behind it |
| TagRecognition.ClauseRecognised | HW/hw5_codegen/handlers_gen/codegen.go:248-289 | the six unanchored patterns see in a well-formed clause, written as text, exactly that clause |
| TagRecognition.TagRecognised | HW/hw5_codegen/handlers_gen/codegen.go:225-290 | a tag of well-formed clauses joined with commas, or an empty one, is parsed into what the clauses say, one after the other |
| Validator.Generate | HW/hw5_codegen/handlers_gen/codegen.go:213-296 | for any tags the emitted program is the concatenation, in struct order, of the templates filled with what the clause loop read |
| Validator.WrittenTemplates | HW/hw5_codegen/handlers_gen/codegen.go:225-296 | well-formed clauses written down as tags reach the templates as they were meant |
| ValidatorProofs.GeneratedMeansClauses | HW/hw5_codegen/handlers_gen/codegen.go:120-165 | on any form the emitted statements refuse with the message, or accept with the parameters, that interpreting the clauses directly on the form gives, if the form has been filled or the first field is a string |
| ValidatorReading.LeadingNumberIsRefused | HW/hw5_codegen/handlers_gen/codegen.go:125-128 | if the structure begins with a number, the emitted function refuses every form with its conversion error |
| ValidatorReading.MeansClausesIffStringFirst | HW/hw5_codegen/handlers_gen/codegen.go:120-165 | called as a handler calls it, the emitted function agrees with the clauses on all forms exactly when the structure does not begin with a number |
| ValidatorReading.ReadableAfter | HW/hw5_codegen/handlers_gen/codegen.go:125-128 | the emitted statements of some fields leave a filled form behind exactly when it was filled before or one of the fields is a string |
| ValidatorAcceptance.EmittedAccepts | HW/hw5_codegen/handlers_gen/codegen.go:121-164 | the emitted program accepts a form exactly when every number parses and every value, default included, is not empty if required, one of the options, at least min and below max; the parameters are then those values |
| ValidatorAcceptance.EmittedRefuses | HW/hw5_codegen/handlers_gen/codegen.go:121-164 | it refuses with the message of the first field in struct order that does not meet its clauses |
| ValidatorAcceptance.EmittedTexts | HW/hw5_codegen/handlers_gen/codegen.go:125-139 | a text field of an accepted form has the text that was sent or, when none or an empty one was, its default; a required one that comes out empty is refused with the message must me not empty |
| ValidatorAcceptance.FirstFailureCounts | HW/hw5_codegen/handlers_gen/codegen.go:121-164 | every refusal is the message of some field all of whose predecessors met their clauses |
| ValidatorAcceptance.MaximumIsRefused | HW/hw5_codegen/handlers_gen/codegen.go:152-156 | a value that reaches the maximum, the maximum itself included, having passed what comes before, is refused by the emitted program with the message must be <= |
| ValidatorAcceptance.OrderOfClauses | HW/hw5_codegen/handlers_gen/codegen.go:245-290 | permuting, in any fields, clauses that do not contradict each other changes nothing of what the emitted program does on any form from any state, but the text of an enum error |
| ValidatorAcceptance.ValidDeclaredOnce | HW/hw5_codegen/handlers_gen/codegen.go:139-151 | valid is declared at most once in the emitted function exactly when at most one field has an enum clause |
| Unpack.UnpackReflect | lectures/C1/reflect/reflect_2.go:17-49 | the loop over the fields leaves structure and reader, and ends with nil, the error or a panic, as the recursive description says, for truncated input too |
| Unpack.Generate | lectures/C1/codegen/gen/codegen.go:94-117 | the generator emits the templates of the fields in order and stops exactly at a field that is not hidden from it and whose type is not written int or string |
| UnpackProofs.GeneratedEqualsReflect | lectures/C1/codegen/gen/codegen.go:21-37 | for every list of supported fields of which the same are hidden from both programs and the others can be set, and every input the emitted statements leave the same fields and reader position as UnpackReflect |
| UnpackProofs.AgreeIffTagsAgree | lectures/C1/codegen/gen/codegen.go:97-104 | the two programs agree on all inputs exactly when each field is hidden from both of them or from neither and every other one is exported |
| UnpackProofs.ReflectDone | lectures/C1/reflect/reflect_2.go:24-49 | UnpackReflect returns nil exactly when every field it does not skip has a type it supports and can be set |
| UnpackProofs.ReflectStops | lectures/C1/reflect/reflect_2.go:24-46 | otherwise, on every input, the first field that does not decides between the error and a panic, and the fields before it are filled |
| UnpackProofs.TruncatedField | lectures/C1/reflect/reflect_2.go:31-42 | a number that the input breaks off in becomes 0, a text as many zero bytes as its length says, and nothing is left to read |
| UnpackProofs.UnpackPacked | lectures/C1/reflect/reflect_2.go:24-43 | for fields that can be set, unpacking undoes little-endian length-prefixed packing of numbers and lengths below 2^32 and stops right behind it |
| UnpackProofs.GeneratedUnpacksPacked | lectures/C1/codegen/gen/codegen.go:21-37 | so does the emitted code |
| UnpackProofs.FilledLookup | lectures/C1/reflect/reflect_2.go:24-43 | after the round trip each field that is not skipped has its packed value and every other field what it had |
| UnpackProofs.DeclaredOnceIffNoClash | lectures/C1/codegen/gen/codegen.go:22-36 | the emitted function declares no local twice exactly when no string field A stands beside a field ALen |
| Search.SlowSearch | HW/hw3_bench/common.go:45-110 | two passes with linear scans report the users with both kinds of browsers and count the different interesting browsers |
| Search.FastSearch | HW/hw3_bench/fast.go:22-44 | one pass with a map reports the users with an Android browser and a browser that is only MSIE, and counts the same browsers |
| Search.ProcessUser | HW/hw3_bench/fast.go:55-80 | one user: the map grows by its interesting browsers, the line is written on the narrower condition |
| Search.WhoIsReported | HW/hw3_bench/fast.go:60-79 | the slow form reports users with a browser named Android and one named MSIE, the fast one those whose MSIE is not in a name with Android |
| Search.LineSays | HW/hw3_bench/fast.go:78-79 | a line has the number, the name and the address with the at sign as a word |
| Search.OutputSays | HW/hw3_bench/common.go:44-111 | the output is the heading, the lines of the reported users in their order, and the number of different browsers of all users with one of the two names |
| Search.FastIsSubsequence | HW/hw3_bench/fast.go:60-79 | the users the fast form reports are, in order, those of the slow form's that meet its condition |
| Search.SameOutputIff | HW/hw3_bench/fast.go:60-79 | the two outputs are equal exactly when no user has MSIE only in browsers that also contain Android |
| Search.SameOutputWithoutBoth | HW/hw3_bench/fast.go:60-79 | in particular they are equal when no browser contains both names |
| SqlBinding.NewTable | HW/hw6_db_explorer/db_explorer.go:43-68 | the loops over the columns, with their tests of the type text, compute the maps and the column list that TableOf describes |
| SqlBinding.WhatFits | HW/hw6_db_explorer/db_explorer.go:51-58 | no number fits into a column whose type mentions varchar or text, no text into another whose type mentions int or float, and anything else into any |
| SqlBinding.WhereNullFits | HW/hw6_db_explorer/db_explorer.go:313-317 | a null is refused exactly for a column that must not be null, and follows nil where there is no column |
| SqlBinding.NumberingInverts | HW/hw6_db_explorer/db_explorer.go:61-65 | KeyNumber and the column list of the insert statement invert each other |
| SqlBinding.Put | HW/hw6_db_explorer/db_explorer.go:214-250 | for any order of ranging over the body the same bodies are accepted and each placeholder gets the member named like its column |
| SqlBinding.PutBindsByName | HW/hw6_db_explorer/db_explorer.go:224-252 | an accepted PUT gives each non-key column its member of the body or its filler, and never names the key |
| SqlBinding.PutRefusals | HW/hw6_db_explorer/db_explorer.go:224-246 | a PUT is refused exactly for a member of the wrong type or a missing numeric column that must not be null |
| SqlBinding.Post | HW/hw6_db_explorer/db_explorer.go:270-322 | for any order of ranging: the same bodies are accepted; an accepted one names every member once with its value, the id last; a refusal is for the key or for the first member in that order that does not fit; nil is dereferenced exactly when that member is a null without a column |
| SqlBinding.SomeOrderDereferencesNil | HW/hw6_db_explorer/db_explorer.go:297-318 | some order dereferences nil exactly when the key is not in the body and some member is a null for a column that does not exist |
| SqlBinding.EveryOrderDereferencesNil | HW/hw6_db_explorer/db_explorer.go:297-318 | every order does exactly when, in addition, no other member is refused |
| SqlBinding.NullForUnknownColumn | HW/hw6_db_explorer/db_explorer.go:313-317 | a body with nothing but a null for an unknown column always does |
| SqlUpdate.PostChangesBodyColumns | HW/hw6_db_explorer/db_explorer.go:294-324 | an accepted POST over columns that are no part of a key is an SQL error exactly for an empty body, a table without a key or a value that is not taken; otherwise it changes every row whose first key column equals the id, in exactly the members of the body, and no other |
| SqlUpdate.PostChangesOneRow | HW/hw6_db_explorer/db_explorer.go:294-324 | with one key column, if different values of it in the table are not taken for equal to the id, exactly the addressed row changes |
| SqlUpdate.AddressesOneIffOneKeyColumn | HW/hw6_db_explorer/db_explorer.go:275-280 | an id addresses at most one row in every table the primary key allows exactly when there is one key column |
| Auction.Lot.SetNewBid | lectures/C1/async/context.go:34-55 | a higher bid is taken and counted and finishes the auction by count or by price; any other changes nothing |
| Auction.Bounds | lectures/C1/async/context.go:34-115 | in every run with stale reads: accepted bids strictly increase, the holder made the last one, at most MaxBids are accepted, and the price stays within MaxPrice + 98 and within start + 99 per accepted bid |
| Auction.OverIffLimit | lectures/C1/async/context.go:34-55 | without the timeout an auction is over exactly when MaxBids bids have been taken or one that is not below MaxPrice |
| Auction.BidderCanRaise | lectures/C1/async/context.go:67-115 | as long as the main loop waits an idle bidder can make any bid of up to 99 above the price, and it is taken |

## Left out

- Network, HTTP, gRPC, SQL, memcache and Consul clients, file reading, timers, sleeps, logging.
- The algorithms of MD5 and CRC32, regular-expression matching, the JSON and easyjson lexers.
- Values on the pipeline channels that are not strings: MultiHash and CombineResults would format or
  panic on them; SingleHash applies fmt.Sprint, which is the identity on strings.
- EveryRunEnds: no jobs that start goroutines of their own other than the hashing stages, and no first job
  that waits for input.
- MeansClausesIffStringFirst: that a leading number makes a difference is shown for bounds that do not end
  in the words of the conversion error; with such a text for a bound, which is no Go expression, two
  different refusals could read alike.
- Steps inside a goroutine that touch nothing shared are merged with the step before: starting the
  first goroutines of a value, the deferred close and wg.Done, the two closes of SingleHash.
- The cancellation branch of notifyStreams and AdminServerImpl.Close: subscribers stay, the server is up.
- Mutual exclusion of cache rebuilds: the result of lockRebuild is discarded by the code. TGet is one
  step of a run, except in TagCacheLate, where a rebuild is cut between the callback and the tags.
- Errors of the memcache client and of encoding in TGet; 64-bit wrap-around of tag versions and counters.
- Next on a side channel that is closed or carries an empty batch: both callers guard against it.
- Fill: the written value is returned instead of being written through a reference; aliasing of sub-objects
  is not modelled, nor the conversion of numbers outside the range of int.
- PrintTree: write errors and directories that cannot be read.
- Clause texts with newlines, quotes, backslashes or percent signs, and the templates of the HTTP handlers; walking the
  Go syntax tree; fields without an apivalidator tag.
- Line splitting and malformed users in the search programs, which treat a trailing newline differently.
- UnpackReflect: fields without a name, on which the generator stops, and fields named _, for which the
  generated code does not compile.
- RoundTrip: embedded fields, the string option of json tags, types with a MarshalJSON of their own, slices
  of bytes, which json.Marshal writes as text, and strings that are not valid UTF-8.
- PostChangesBodyColumns: names that are no columns, whose text is pasted into the statement as it is,
  columns of the key that the body sets, and constraints between rows other than the key.
- A body that is the JSON text null, for which filling in defaults panics; reading and deleting rows in the SQL explorer.
- The other programs of the repository: session managers, CRUD demos, middleware, small channel demos.
