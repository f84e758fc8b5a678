# Hitbox: a verified model of its caching core

Hitbox puts a cache between a client and an upstream service. This project models the parts of it
where a small slip would go unnoticed, and proves what they promise:

- **Composed backends.** A cache of caches (memory before Redis before disk) is a binary tree. A value is
  serialized once per layer, packed into a 48-byte-header envelope at every composition, unpacked again on
  the way down, re-wrapped on the way up and decoded by a recursive format that records which layer
  answered. Results hold for every tree and every policy, races included; where a result needs that no leaf
  fails, or that a race's losing write has taken effect, it says so.
- **Buffered HTTP bodies.** A stream is read from the front by predicates and then replayed as if nobody
  had looked.
- **Dogpile prevention.** Requests for one key share a semaphore and a one-shot broadcast. Every atomic step
  is an action and a run is any sequence of actions.
- **Key codecs.** The columnar codec behind the compact key format, and the url-encoded one down to bytes.
- **Expiry through Redis.** Nanosecond instants pass through whole seconds and milliseconds and back.

Each file is one module. `Values`, `Contexts`, `Policies`, `Formats`, `Envelope` and `Backends` are the data
and the operations; `Reads` and `Writes` hold the simple forms the operations are measured against (which
leaf's entry a read should find, and which bytes a write should leave in which leaf); `Gets`, `Sets`,
`RoundTrips`, `Coherence`, `Refills`, `RefillSpines`, `Deletes` and `Offloads` hold the theorems, and `CacheLayers` the operations as
they run in place. `Bodies`, `BodyCollect`, `BodyHints` and `BodyOperations` are the HTTP body;
`Concurrency` the dogpile prevention; `Keys`, `KeyColumns`, `KeyCodecs`, `Utf8`, `UrlEncoding` and `UrlKeys`
the keys; `Redis`, `RedisFreshness` and `RedisHits` the Redis backend.

`dafny verify dfyconfig.toml` checks everything.

## How to read the model

- A leaf backend is a map entry per key, an abstract format (encode and decode, either may fail) and an
  abstract compressor. `LawfulLeaves` says decoding undoes encoding; nothing else is assumed of them.
- `Stores` maps (leaf, key) to the stored raw value. `down` is the set of leaves whose operation fails.
- `Separate(b)` says no leaf is reached twice; `Built(b)` is the shape construction, relabelling and policy
  changes give a tree (`ConstructionBuilds`, `ReconfigurationKeepsBuilt`).
- The outcome of a race is a field of the policy value, so "for every policy" includes "for every race". For a
  write race that is who won and whether the losing write has taken effect by the time the next operation starts;
  an offloaded one may be pending, and `Offloads` follows it to its end.
- Instants are nanoseconds since the epoch; clock readings are parameters.
- The untyped path is the default `get`/`set`, which composed backends use behind `dyn Backend`; the typed
  path is the composition's own `get`/`set`, which skips the root's envelope.
- Strings in keys are sequences of UTF-8 bytes.

## Where the code and its own documentation differ

The model follows the code, and each difference is proved.

- The default `get` announces a refill of layer one (`hitbox-backend/src/backend.rs:302-306`), but the default
  `set` it calls returns at once in refill mode: `GenericGetNeverWrites`.
- Equal formats are meant to be an optimisation, but all compositions report one identifier
  (`hitbox-backend/src/composition/format.rs:335-338`), so of two composed layers the second is handed the
  first one's bytes. `OwnEncodingsIffCoherent` gives the exact condition, `ComposedTiersMisplaceBytes` a tree
  on which it fails.
- Inspecting a body promises that nothing is lost (`hitbox-http/src/body.rs:21`). Data bytes and errors are
  indeed kept by `collect_exact`; trailers that were read past are not (`TrailersSurviveIffNotRead`), and
  `collect` drops what the failing call had read (`FailedCollectTransparency`, `FailedCollectLosesData`).
- Url-encoded keys are documented as reversible (`hitbox-backend/src/key.rs:11`). They are exactly when no part
  has a reserved name and no value is empty: `ExactKeyRoundTrip`, `SameFormIffSameNormalKey`; keys that are not
  are in `ReservedNameIsLost` and `EmptyValueIsLost`.
- The parallel read policy prefers the longer remaining life, but a hit in its last second counts as one without an
  expiry: `LastSecondWins`, with the exact condition in `ParallelChoosesLongerLifeIff`.
- A value with less than one second to live sends Redis no expiry at all: it never expires
  (`SubSecondExpiryIsLost`) or lives on an older deadline (`SubSecondKeepsOlderDeadline`). And one with time left
  may be read back as living up to the latencies and a millisecond too long (`DriftMakesFresher`);
  `FreshnessIsKeptIff` gives the exact condition. A write over a key that runs out between its two commands is lost
  though it reports success: `WriteLostAtOldDeadline`.
- `collect_exact(0)` on a body with nothing buffered reports `Incomplete`: the extra disjunct of
  `CollectExactReports`.

## Model

| member | source | states |
|---|---|---|
| Values.Truncate | hitbox-core/src/value.rs:144-145 | whole units are cut toward zero, on either side of zero |
| Values.Ttl | hitbox-core/src/value.rs:141-150 | a time to live exists exactly when a whole second is left, and is the largest number of seconds not past the expiry |
| Values.StateFollowsInstants | hitbox-core/src/value.rs:160-173 | expired exactly once the expiry is reached, stale exactly between staleness and expiry, actual exactly before either |
| Values.StatesOnlyAge | hitbox-core/src/value.rs:160-173 | a later reading never finds a value fresher |
| Values.EarlierInstantsAreNoFresher | hitbox-core/src/value.rs:160-173 | moving expiry and staleness earlier never makes a value fresher, at any clock reading |
| Contexts.SettersReachTheRecord | hitbox-backend/src/composition/context.rs:64-108 | under any number of wrappers, what a setter writes is what the getter and the finished record show, and wrappers stay as they are |
| Contexts.BoxContext.MergeFrom | hitbox-core/src/context.rs:128-146 | a merge takes over the status of a hit or stale hit, and a backend source under the given prefix; a miss or an upstream source leaves the own one |
| Contexts.BoxContext.Upgrade | hitbox-backend/src/composition/context.rs:123-126 | the held context is swapped for a wrapper around it |
| Contexts.BoxContext.SetReadMode | hitbox-backend/src/composition/context.rs:89-91 | the mode reaches the finished record through any wrappers; a wrapped context goes on reporting its own mode, and nothing else of it changes |
| Contexts.MergeTakesOver | hitbox-core/src/context.rs:128-146 | under any wrappers on either side, a merge shows the status of any hit, stale ones included, and any backend source under the prefix, and changes nothing else |
| Envelope.LittleEndianRoundTrip | hitbox-backend/src/composition/envelope.rs:147-165 | a header field read back is the number written |
| Envelope.HeaderRoundTrip | hitbox-backend/src/composition/envelope.rs:52-165 | a 48-byte header followed by anything is read back field by field |
| Envelope.LittleEndianDigits | hitbox-backend/src/composition/envelope.rs:147-149 | byte i of a field is its i-th base-256 digit |
| Envelope.HeaderLayout | hitbox-backend/src/composition/envelope.rs:52-65 | the place of each field in the 48 bytes, zeros between |
| Envelope.SerializedForm | hitbox-backend/src/composition/envelope.rs:194-238 | the first byte says which layers follow, payloads come behind the header in layer order |
| Envelope.LengthsWrap | hitbox-backend/src/composition/envelope.rs:69-129 | a payload length is cut to its low 32 bits |
| Envelope.FourDigitYearsAreKept | hitbox-backend/src/composition/envelope.rs:131-145 | every instant of the years 1 to 9999 is kept to the nanosecond, the epoch alone excepted |
| Envelope.WriteEnvelope | hitbox-backend/src/composition/envelope.rs:194-238 | the buffer filled piece by piece is header then payloads, of exactly that length |
| Envelope.EnvelopeKeepsData | hitbox-backend/src/composition/envelope.rs:194-325 | payloads below 2^32 bytes survive in their layers, whatever bytes follow |
| Envelope.EnvelopeRoundTrip | hitbox-backend/src/composition/envelope.rs:131-325 | an envelope comes back unchanged if and only if lengths fit 32 bits, no timestamp is the epoch or out of calendar range, and both layers share timestamps |
| Envelope.EnvelopeTimestamps | hitbox-backend/src/composition/envelope.rs:107-174 | otherwise-fitting envelopes come back with layer one's timestamps for both layers |
| Envelope.DeserializedFits | hitbox-backend/src/composition/envelope.rs:245-325 | whatever was read, its lengths fit and it would itself round-trip |
| Envelope.AcceptedIff | hitbox-backend/src/composition/envelope.rs:245-325 | bytes are accepted if and only if they hold a header, a known first byte and as many bytes as its lengths ask for |
| Envelope.RefusalReasons | hitbox-backend/src/composition/envelope.rs:152-165 | which of the three reasons is given for a refusal, and how many bytes were needed |
| Envelope.TrailingBytesAreIgnored | hitbox-backend/src/composition/envelope.rs:245-325 | bytes behind an accepted envelope never change what is read |
| Envelope.PrefixAcceptance | hitbox-backend/src/composition/envelope.rs:245-325 | a cut envelope is accepted exactly from the length its header declares |
| Envelope.StrictPrefixesAreRejected | hitbox-backend/src/composition/envelope.rs:194-325 | every strict prefix is rejected if and only if no payload length was truncated to 32 bits |
| Formats.UnpackBoth | hitbox-backend/src/composition/format.rs:252-268 | packing both layers without instants and opening gives both payloads back |
| Formats.OpenedDecodesLayer | hitbox-backend/src/composition/format.rs:272-329 | decoding an envelope is decoding the layer it holds, with that layer recorded |
| Formats.FormatRoundTrip | hitbox-backend/src/composition/format.rs:198-329 | any nested format reads back what it serialized, in normal and refill contexts, from the first layers all the way down |
| Policies.SelectReturnsAReply | hitbox-backend/src/composition/policy/read/race.rs:79-235 | every read policy returns one of its two replies with that reply's context and layer tag, misses only when neither hit, and fails only with the second layer's error |
| Policies.SelectIsUniform | hitbox-backend/src/composition/policy/read/parallel.rs:62-158 | a policy looks only at outcomes and instants, so replies alike in those are selected alike |
| Policies.SelectSurvivesFailures | hitbox-backend/src/composition/policy/read/sequential.rs:46-113 | hits turning into failures on the side not selected change nothing |
| Policies.ParallelComparesWholeSeconds | hitbox-backend/src/composition/policy/read/parallel.rs:84-113 | of two parallel hits outside their last second, layer two is chosen exactly when it has more whole seconds left or alone never expires |
| Policies.ParallelChoosesLongerLifeIff | hitbox-backend/src/composition/policy/read/parallel.rs:84-113 | the hit left behind does not outlive the chosen one by a second or more, if and only if no hit in its last second misleads the comparison |
| Policies.LastSecondWins | hitbox-backend/src/composition/policy/read/parallel.rs:84-113 | layer two with half a second left is chosen over layer one with ten seconds |
| Policies.FirstFinisherWins | hitbox-backend/src/composition/policy/read/race.rs:79-235 | with a hit there is an answer: the first to finish in a race if it hit, layer one sequentially if it hit, and otherwise the one that did |
| Policies.WithoutAHit | hitbox-backend/src/composition/policy/read/race.rs:79-235 | without a hit, sequentially layer two decides between miss and error, otherwise only two failures are an error, layer two's |
| Backends.ConstructionBuilds | hitbox-backend/src/composition/mod.rs:139-185 | new compositions read sequentially, write both and never refill; relabelled and given policies, their formats mirror their layers and labels are current |
| Backends.ReconfigurationKeepsBuilt | hitbox-backend/src/composition/mod.rs:219-267 | relabelling and policy changes keep that, in any order, and each leaves what the other sets alone |
| Reads.StackSpellsTheRoute | hitbox-backend/src/composition/context.rs:31-62 | the wrappers read from outside in are the root-to-leaf path, and unwrap to the original record |
| Reads.SelectedStandsFor | hitbox-backend/src/composition/mod.rs:465-478 | selecting among wrapped replies is wrapping the selected reply |
| Reads.RawReadRefinesResolve | hitbox-backend/src/composition/mod.rs:411-481 | a raw read through all envelopes stands for the envelope-free choice among leaf entries: same outcome, same instants, same decoding in every context |
| Gets.ResolveAnswersFromALeaf | hitbox-backend/src/composition/mod.rs:411-481 | under every policy a read answers with an entry of a readable leaf, and finds one exactly when there is one |
| Gets.GenericGetNeverWrites | hitbox-backend/src/backend.rs:302-341 | the default get changes no store, even when the read mode comes out as refill |
| Gets.GenericGetAnswers | hitbox-backend/src/backend.rs:244-320 | the untyped get returns the answering leaf's own decoding with that leaf's instants; wrappers spell the path; status and source are set |
| Gets.TypedLayerAnswers | hitbox-backend/src/composition/mod.rs:636-702 | one layer's typed reply is its resolved entry decoded at the leaf, with the source of the answering child |
| Gets.TypedGetAnswers | hitbox-backend/src/composition/mod.rs:609-792 | from a plain context, a hit is a readable leaf's own entry, the source is the dotted path to it for every nesting depth and relabelling, and refill mode is set exactly for a layer-two answer under Always |
| Gets.TypedGetRefinesGeneric | hitbox-backend/src/composition/mod.rs:609-792 | the envelope-free get returns the same as the untyped one when stored bytes decode, and differs only by falling back where the untyped one met undecodable bytes |
| Gets.ParallelLeavesAnswer | hitbox-backend/src/composition/mod.rs:609-792 | a parallel get from two leaves that both hit answers the longer life by whole seconds, and otherwise no life shorter by a second unless a last second misled it |
| Gets.RacingLeavesAnswer | hitbox-backend/src/composition/mod.rs:609-792 | a racing get from two leaves that both hit answers the first to finish, a sequential one layer one |
| Writes.WriteLayersSettles | hitbox-backend/src/composition/policy/write/race.rs:84-186 | every write policy is two writes one after the other, as far as the second has taken effect when the next operation starts |
| Writes.RawWriteDelivers | hitbox-backend/src/composition/mod.rs:484-550 | writing a tree's payload puts each leaf's own encoding in its slot or leaves the slot alone, touches nothing else, and succeeds exactly as the failing leaves and policies say |
| Writes.WriteLayersDelivers | hitbox-backend/src/composition/mod.rs:914-950 | the same for the two layers written under the write policy, which pass on the given instants to direct leaves |
| Writes.WriteReachesAllIff | hitbox-backend/src/composition/policy/write/race.rs:84-186 | with nothing failing, a first write has reached every leaf when the next operation starts if and only if no race in the tree left its loser behind |
| Writes.EnvelopeReachesItsLayers | hitbox-backend/src/composition/mod.rs:484-550 | any envelope that keeps its contents reaches exactly the layers it holds, with their own bytes and instants |
| Writes.OtherBytesAreRefused | hitbox-backend/src/composition/mod.rs:484-487 | bytes that are no envelope are refused and nothing is stored |
| Sets.AdmissibleIsCoherent | hitbox-backend/src/composition/format.rs:76-78 | layers that report one identifier and have one encoding make reuse harmless on every value |
| Sets.CoherentSerialization | hitbox-backend/src/composition/format.rs:119-160 | on a coherent tree the composed format produces every leaf's own encoding |
| Sets.GenericSetDelivers | hitbox-backend/src/backend.rs:325-376 | the untyped set leaves in each leaf exactly that leaf's own encoding, touches no other key, and changes nothing when some format fails |
| Sets.TypedSetDelivers | hitbox-backend/src/composition/mod.rs:897-951 | so does the typed set, and its direct leaves also keep expiry and staleness |
| Sets.RawWriteIgnoresInstants | hitbox-backend/src/composition/mod.rs:484-550 | where data goes and whether a write succeeds never depends on instants |
| Sets.TypedSetMatchesGeneric | hitbox-backend/src/composition/mod.rs:897-951 | for every tree, coherent or not, typed and untyped set return the same result and store the same bytes in every leaf |
| RoundTrips.SetKeepsStoredFits | hitbox-backend/src/composition/envelope.rs:194-238 | a set keeps every stored entry short enough to be wrapped on the way back up |
| RoundTrips.SetThenGet | hitbox-backend/src/backend.rs:244-376 | whatever leaves fail on either side and whatever losers are pending, a value read after a set is the one set or one a leaf already held; once every race is over and without write failures it is the one set, and without read failures there is one |
| RoundTrips.TypedSetThenGet | hitbox-backend/src/composition/mod.rs:609-951 | the same for the typed path, failures and pending losers included; the source names the path, and the instants set come back exactly from a direct layer |
| RoundTrips.NoFailureNoError | hitbox-backend/src/composition/mod.rs:411-481 | reads fail only when leaves do, and a read that does not fail misses only when some leaf lacks the key |
| Coherence.OnlyOwnPayloadDelivers | hitbox-backend/src/composition/mod.rs:484-550 | if a write put every leaf's own encoding in place, its bytes were the tree's own payload |
| Coherence.OwnBytesIffCoherent | hitbox-backend/src/composition/format.rs:119-160 | the composed format yields the leaves' own encodings if and only if the tree is coherent on the value |
| Coherence.OwnEncodingsIffCoherent | hitbox-backend/src/composition/format.rs:119-160 | with nothing failing, a set gives every leaf its own encoding if and only if the tree is coherent on the value |
| Coherence.ComposedTiersMisplaceBytes | hitbox-backend/src/composition/format.rs:335-338 | two composed layers with different leaf formats: the second holds bytes its codec cannot read |
| Refills.SequentialGetIsFirstHit | hitbox-backend/src/composition/policy/read/sequential.rs:46-113 | with sequential policies and nothing failing, a get is the first-hit lookup, decoding failures included |
| Refills.FirstLeafWriteLands | hitbox-backend/src/composition/format.rs:212-236 | in a wrapper's refill context the format sends the value to the first leaf only |
| Refills.RefillLands | hitbox-backend/src/composition/mod.rs:807-848 | a set in refill mode writes at most layer one of each composition down the right spine, when it succeeds has reached every one of them, stops at Never, and never writes the last leaf |
| Refills.RefillIsInvisible | hitbox-backend/src/composition/mod.rs:807-848 | failed halfway or not, under any mix of Always and Never, a refill changes no first-hit lookup of any key; if it succeeds under Always after a layer-one miss, layer one answers the value |
| Refills.GetRefillGet | hitbox-backend/src/composition/mod.rs:780-848 | get below an empty layer one, refill as its context asks, and once that succeeds get again: the same value from layer one in direct mode |
| RefillSpines.RefillReachesSpine | hitbox-backend/src/composition/mod.rs:807-848 | with nothing failing and every race over, a refill succeeds and every leaf of every layer one down the spine holds its own encoding |
| RefillSpines.RefilledSpineAnswers | hitbox-backend/src/composition/mod.rs:807-848 | after a successful refill every sequential composition on the spine, at any depth, answers the value from its own layer one |
| Deletes.DeleteCountsHolders | hitbox-backend/src/composition/mod.rs:553-581 | an error exactly when all leaves failed, missing exactly when some answered and none had the key, otherwise the number of leaves that removed it; exactly those entries are gone |
| Deletes.DeleteConservesEntries | hitbox-backend/src/composition/mod.rs:954-993 | what is gone from the stores is what was counted |
| Deletes.DeletedLeavesAreSilent | hitbox-backend/src/composition/mod.rs:553-581 | after a delete only a leaf whose delete failed can still answer |
| Deletes.DeleteThenGet | hitbox-backend/src/composition/mod.rs:954-993 | when no delete and no read fails, a get after a delete misses |
| Deletes.FailedDeleteNamesAllLeaves | hitbox-backend/src/composition/mod.rs:553-563 | when every leaf failed, the error names all of them in the shape of the tree and nothing is removed |
| Offloads.OffloadedWritesArrive | hitbox-backend/src/composition/policy/write/race.rs:110-135 | when no loser is dropped and nothing fails, running the offloaded writes, and those they offload in turn, in any order at all leaves every leaf with its own encoding and touches nothing else |
| Offloads.SetSettleGet | hitbox-backend/src/composition/policy/write/race.rs:40-52 | a set, its background writes in any order, then a get: the value set, under every read policy |
| Offloads.PendingLayerAnswersOld | hitbox-backend/src/composition/policy/write/race.rs:150-170 | until the pending write runs, a sequential get goes on answering what layer one held before the successful set |
| Offloads.LateLoserOverwrites | hitbox-backend/src/composition/policy/write/race.rs:150-170 | whatever was stored in the meantime, newer values included, the pending write puts its own value in front of every sequential lookup |
| Offloads.DroppedLosersLeaveNothing | hitbox-backend/src/composition/policy/write/race.rs:110-135 | a dropped loser leaves no background write |
| CacheLayers.Layers.Read | hitbox-backend/src/composition/mod.rs:411-481 | the read as it runs, not reading layer two after a sequential hit, is the raw read |
| CacheLayers.Layers.Write | hitbox-backend/src/composition/mod.rs:484-550 | the stores end up as the raw write says |
| CacheLayers.Layers.Delete | hitbox-backend/src/composition/mod.rs:553-581 | stores and status end up as the removal says: exactly the answering leaves' entries are gone and their number is reported |
| CacheLayers.Layers.Set | hitbox-backend/src/backend.rs:325-376 | the default set in place, delivering every leaf's own encoding on a coherent tree |
| CacheLayers.Layers.Get | hitbox-backend/src/backend.rs:244-320 | the default get in place, on the caller's context |
| CacheLayers.Layers.GetTyped | hitbox-backend/src/composition/mod.rs:609-792 | the typed get in place, on the caller's context |
| CacheLayers.Layers.SetTyped | hitbox-backend/src/composition/mod.rs:795-951 | the typed set in place, its refill reaching layer one of every composition down the spine |
| Bodies.PollMakesProgress | hitbox-http/src/body.rs:202-232 | a poll that yields something uses up an event, one that yields nothing changes nothing |
| Bodies.DrainClosedForm | hitbox-http/src/body.rs:345-376 | draining a body is its buffered bytes followed by what its stream or stored error gives |
| Bodies.InspectionIsTransparent | hitbox-http/src/body.rs:655-799 | for every body, frames and limit, collecting and putting back together drains to the same bytes and the same first error or clean end |
| Bodies.UseIsTransparent | hitbox-http/src/body.rs:482-516 | so does any interleaving of inspections and reads |
| Bodies.CollectExactReports | hitbox-http/src/body.rs:655-799 | at-least is reported exactly when that many data bytes come before the end or first error, and shows a front of them; otherwise everything is shown, with the error |
| Bodies.StopsAtFirstBoundary | hitbox-http/src/body.rs:752-799 | frames are read up to the first boundary that reaches the limit and no further |
| Bodies.ShortInspectionAddsNoEmptyFrame | hitbox-http/src/body.rs:752-799 | an inspection that ran short hands back an empty frame only if one was buffered before |
| BodyCollect.CollectMatchesDrain | hitbox-http/src/body.rs:562-608 | collect succeeds exactly when draining ends cleanly and no stored error was taken, with all drained data; on failure the body replays the buffered prefix and then that error |
| BodyCollect.FailedCollectTransparency | hitbox-http/src/body.rs:574-599 | a failed collect loses nothing if and only if no data frame with a byte in it comes before the failure |
| BodyCollect.FailedCollectLosesData | hitbox-http/src/body.rs:574-580 | one byte and then a failure: the returned body has lost the byte |
| BodyCollect.CollectAfterInspection | hitbox-http/src/body.rs:562-608 | a body whose error was not handed out collects after an inspection exactly when before it, and to the same bytes |
| BodyCollect.TrailersSurviveIffNotRead | hitbox-http/src/body.rs:752-799 | inspecting a body in any state keeps its trailers if and only if it read past none |
| BodyCollect.TrailersAreSeenOrLost | hitbox-http/src/body.rs:655-799 | over any mixture of inspections and reads, every trailer is either seen by the reader or was read past by an inspection |
| BodyCollect.TrailersCanBeLost | hitbox-http/src/body.rs:752-799 | a body whose trailers an inspection drops |
| BodyHints.SoundnessIsKept | hitbox-http/src/body.rs:202-232 | any sequence of polls and inspections keeps the inner stream's hints right and adds no data |
| BodyHints.BufferedBoundsNeverCross | hitbox-http/src/body.rs:234-260 | with saturating 64-bit arithmetic the lower bound never passes the upper, however wrong the inner hint |
| BodyHints.HintsAreSound | hitbox-http/src/body.rs:234-271 | with any right inner hint, the body's hint brackets the data still to come, and an end-of-stream flag means the next poll is the end |
| BodyHints.HintsStaySound | hitbox-http/src/body.rs:234-271 | with less than 2^64 data bytes, hint, bounds and end flag are right in every state reached by polls and inspections |
| BodyHints.BufferedHintIsExact | hitbox-http/src/body.rs:378-401 | without a stream both bounds are the data a reader will get, and the end flag is set exactly at the end |
| BodyHints.StreamHintIsShifted | hitbox-http/src/body.rs:234-271 | with a stream both bounds are its own plus what is buffered, while 64 bits hold them, and the end flag needs nothing buffered and the stream's own |
| BodyHints.HintsStayExact | hitbox-http/src/body.rs:378-401 | over a stream that knows its size, or none, every state reached by polls and inspections states exactly the data a reader will get |
| BodyOperations.LiveBody.PollFrame | hitbox-http/src/body.rs:202-232 | one poll in place: buffered bytes once, then the stream or the stored error once |
| BodyOperations.LiveBody.ReadAll | hitbox-http/src/body.rs:345-376 | polling to the first error or end gives the drain |
| BodyOperations.CollectExactFromStream | hitbox-http/src/body.rs:752-799 | the loop over frames ends on every finite stream, empty frames included, and gives the recursive form's result |
| BodyOperations.CollectExactly | hitbox-http/src/body.rs:655-743 | the case analysis as it runs, with what it reports and that it loses nothing |
| Concurrency.RunKeepsInv | hitbox/src/concurrency.rs:167-246 | in every interleaving each in-flight entry is its key's only current generation, permits add up, channels carry at most the one value, and each waiter has at most one outcome |
| Concurrency.RunEvolves | hitbox/src/concurrency.rs:167-246 | along a run a generation never changes its mind and an outcome is never replaced |
| Concurrency.WaiterGetsWhatIsOwed | hitbox/src/concurrency.rs:184-203 | a poll gives nothing while the generation is in the map or about to send, then the one value sent, or closed after a cleanup; never a lag |
| Concurrency.OneAnswerPerGeneration | hitbox/src/concurrency.rs:184-238 | at any two moments of a run, two waiters of one generation with an outcome have the same |
| Concurrency.NoWaiterIsStuck | hitbox/src/concurrency.rs:230-246 | after the pending send, a poll gives nothing exactly when the generation is still in the map |
| Concurrency.ResolveReachesItsWaiters | hitbox/src/concurrency.rs:230-238 | whatever runs between remove, send and poll, the removing resolve's value is what its waiters get |
| Concurrency.SenderIsGone | hitbox/src/concurrency.rs:232-240 | once a resolve is over its channel is closed with the one value in it |
| Concurrency.PhasesAreExplained | hitbox/src/concurrency.rs:230-246 | a generation leaves the map only by a resolve or a cleanup of its own key |
| Concurrency.WaitersWereTold | hitbox/src/concurrency.rs:174-190 | a request is told to wait only at an instant when all permits of that generation are held |
| Concurrency.WaiterFate | hitbox/src/concurrency.rs:167-246 | a received value was given by a later resolve of the waiter's own key, and closed is seen only after a later cleanup of it |
| Concurrency.PermitsAreConserved | hitbox/src/concurrency.rs:174-227 | held and free permits add up to the limit of the request that created the generation, so never more holders than that |
| Concurrency.HoldersAreThoseWhoProceeded | hitbox/src/concurrency.rs:174-227 | over every run, the holders of a generation are exactly the requests whose check proceeded with it and that have not released since |
| Concurrency.ReleasedPermitIsTakenAgain | hitbox/src/concurrency.rs:180-182 | after a holder of the current generation releases, the next check for the key proceeds with it, holds it, and the former holder does not |
| Concurrency.CheckProceedsIff | hitbox/src/concurrency.rs:174-227 | a check proceeds exactly when no generation is current or fewer requests hold it than its limit |
| Concurrency.OldHoldersMayStillRun | hitbox/src/concurrency.rs:209-238 | the bound is per generation: a run where holders of an old and a new one coexist for one key |
| Concurrency.BroadcastConcurrencyManager.Check | hitbox/src/concurrency.rs:167-228 | proceed with a permit, proceed with a new entry, or wait, and the state that leaves |
| Concurrency.BroadcastConcurrencyManager.Resolve | hitbox/src/concurrency.rs:230-240 | remove, send and drop of the sender, or nothing without an entry |
| Concurrency.BroadcastConcurrencyManager.TakeEntry | hitbox/src/concurrency.rs:232-232 | the remove step alone: the entry's generation now owes its waiters that value |
| Concurrency.BroadcastConcurrencyManager.Send | hitbox/src/concurrency.rs:235-236 | the send step alone: the generation is resolved with the value it owed |
| Concurrency.BroadcastConcurrencyManager.Cleanup | hitbox/src/concurrency.rs:242-246 | the entry is gone and its channel closed unsent |
| Concurrency.BroadcastConcurrencyManager.Receive | hitbox/src/concurrency.rs:185-203 | the waiter's outcome is what its generation owes |
| Keys.New | hitbox-core/src/key.rs:308-319 | the stored size is the recomputed one |
| Keys.SizeIsHeapBytes | hitbox-core/src/key.rs:157-171 | the stored size is the number of bytes beyond the first 23 of prefix, names and present values |
| Keys.FromSlice | hitbox-core/src/key.rs:341-357 | each pair becomes the part at its place in an unprefixed version-0 key of the right size |
| Keys.FromStr | hitbox-core/src/key.rs:324-336 | the one-part form of the slice constructor |
| Keys.EqualityIsOfPrefixVersionParts | hitbox-core/src/key.rs:124-129 | stored sizes never separate keys with equal prefix, version and parts |
| Keys.KeyParts.IntoCacheKey | hitbox-core/src/key.rs:547-561 | the builder's parts become an unprefixed version-0 key, sized as constructors size it |
| Keys.KeyParts.Append | hitbox-core/src/key.rs:540-542 | all parts move over, in order, and the argument is left empty |
| KeyColumns.DecodePartsAdvances | hitbox-core/src/key.rs:463-477 | each cursor moves by what the decoded parts used and no further |
| KeyColumns.ColumnsAreFull | hitbox-core/src/key.rs:208-228 | as many value strings as present flags, as many flags and names as parts, as many lengths, versions and prefixes as keys |
| KeyColumns.FullColumnsAreUsedUp | hitbox-core/src/key.rs:238-262 | decoding from full columns never overruns a cursor and leaves every cursor at its end |
| KeyColumns.ListRoundTrip | hitbox-core/src/key.rs:208-262 | any list of keys comes back, sizes included, with what follows untouched |
| KeyColumns.AcceptedInputIsCanonical | hitbox-core/src/key.rs:238-262 | any accepted input decodes to the one list that encodes to it, with recomputed sizes |
| KeyColumns.EncodingIsInjective | hitbox-core/src/key.rs:208-228 | equally many keys share an encoding exactly when they are the same keys |
| KeyCodecs.KeyPartEncoder.Encode | hitbox-core/src/key.rs:418-428 | a part adds a name, a flag and, if present, a value |
| KeyCodecs.CacheKeyEncoder.Encode | hitbox-core/src/key.rs:208-214 | a key adds its length, parts, version and prefix |
| KeyCodecs.EncodeKeys | hitbox-core/src/key.rs:208-228 | encoding key by key and collecting gives the wire form of the list |
| KeyCodecs.KeyPartDecoder.Decode | hitbox-core/src/key.rs:463-477 | a decode advances the value cursor only for a present value |
| KeyCodecs.KeyPartDecoder.Populate | hitbox-core/src/key.rs:452-461 | the number of value strings is counted from the flags |
| KeyCodecs.CacheKeyDecoder.Decode | hitbox-core/src/key.rs:247-262 | a decode gives a well-sized key and moves every cursor past it |
| KeyCodecs.DecodeKeys | hitbox-core/src/key.rs:238-262 | populating and decoding as many keys, on any input, is the list decoder |
| Utf8.LossyIsIdentityIffWellFormed | hitbox-backend/src/key.rs:73-74 | lossy decoding leaves exactly the well-formed byte sequences as they are |
| Utf8.WellFormedIffText | hitbox-backend/src/key.rs:70-71 | well formed is exactly what encodes some sequence of Unicode scalar values |
| Utf8.LossyKeepsFront | hitbox-backend/src/key.rs:73-74 | lossy decoding keeps a well-formed front and goes on behind it |
| Utf8.WrongByteIsReplaced | hitbox-backend/src/key.rs:73-74 | a byte that starts no scalar value, alone or before what follows it, becomes one U+FFFD |
| Utf8.CutScalarIsReplacedOnce | hitbox-backend/src/key.rs:73-74 | any front of a scalar's encoding that does not go on becomes one U+FFFD as a whole |
| UrlEncoding.DecodeUndoesEncode | hitbox-backend/src/key.rs:54-74 | percent-decoding undoes percent-encoding on exactly the strings (sections 5.1 and 5.2 of the WHATWG URL Standard) |
| UrlEncoding.PrintedByte | hitbox-backend/src/key.rs:54-56 | letters, digits and four marks stand for themselves, a space is a plus, any other byte a percent sign and two upper-case hexadecimal digits |
| UrlEncoding.PrintedForm | hitbox-backend/src/key.rs:54-56 | pluses are exactly the spaces, percent signs exactly the escapes, and the length is two more for each escape |
| UrlEncoding.ParseUndoesSerialize | hitbox-backend/src/key.rs:54-74 | parsing undoes serializing for any list of string pairs, empty ones included |
| UrlEncoding.ParsedIsWellFormed | hitbox-backend/src/key.rs:73-74 | whatever the input, what is parsed are strings |
| UrlEncoding.ParseSplits | hitbox-backend/src/key.rs:73-74 | on any input parsing splits at every ampersand, and empty pieces count for nothing |
| UrlEncoding.PairSplitsOnce | hitbox-backend/src/key.rs:73-74 | a pair splits at its first equals sign and has an empty value without one |
| UrlEncoding.StrayPercentStays | hitbox-backend/src/key.rs:73-74 | text in which no percent sign precedes two hexadecimal digits is left as it is |
| UrlEncoding.EitherCaseIsRead | hitbox-backend/src/key.rs:73-74 | an escape is read in upper and lower case, for every byte |
| UrlKeys.VersionRoundTrip | hitbox-backend/src/key.rs:47-84 | a version printed in decimal is parsed back, for every 32-bit value |
| UrlKeys.NumeralsAreRead | hitbox-backend/src/key.rs:80-82 | any decimal numeral is read, zero-padded or with a plus, up to the largest 32-bit number and none beyond |
| UrlKeys.OtherTextIsNoVersion | hitbox-backend/src/key.rs:80-82 | no empty text, lone or second sign or other byte is read as a version |
| UrlKeys.KeyText | hitbox-backend/src/key.rs:47-59 | a key reads as prefix, version and then each part in order, under their names |
| UrlKeys.AnyInputIsReadAs | hitbox-backend/src/key.rs:69-92 | any input is read as the last prefix, the last version and the other pairs in order, and refused exactly if it is not UTF-8 or some version is no numeral |
| UrlKeys.Deserialize | hitbox-backend/src/key.rs:69-92 | the loop over pairs is the fold that reports the first bad version, and refuses input that is not UTF-8 |
| UrlKeys.KeyRoundTrip | hitbox-backend/src/key.rs:42-92 | a key comes back, with empty values read as absent, if and only if no part has a reserved name |
| UrlKeys.ExactKeyRoundTrip | hitbox-backend/src/key.rs:42-92 | the very same key comes back if and only if, besides, no value is empty |
| UrlKeys.ReservedNameIsLost | hitbox-backend/src/key.rs:76-78 | a part named like the prefix replaces the prefix and is gone |
| UrlKeys.EmptyValueIsLost | hitbox-backend/src/key.rs:85-88 | a part with an empty value comes back without a value, which is another key |
| UrlKeys.SameFormIffSameNormalKey | hitbox-backend/src/key.rs:42-59 | two keys share a form if and only if they agree up to empty values |
| UrlKeys.AcceptedKeysAreProper | hitbox-backend/src/key.rs:62-92 | on any input an accepted key has proper strings, no reserved names and no empty values, and round-trips exactly |
| Redis.LiveKeysHoldTheLastWrite | hitbox-redis/src/backend.rs:840-863 | over every run a live key holds the last data written, its stale mark if it gave one and its deadline if it gave one |
| RedisHits.WrittenIsReadUntilDeadline | hitbox-redis/src/backend.rs:840-863 | a write its key outlives is read back exactly until its own deadline, or the older one it left alone, whatever happens to other keys |
| RedisHits.RemovedIsMissed | hitbox-redis/src/backend.rs:865-879 | a removed key is missed until it is written again |
| Redis.DriftIsSmall | hitbox-redis/src/backend.rs:827-858 | what the way in and out adds is the two latencies, give or take a millisecond |
| Redis.HitIsTheLastWrite | hitbox-redis/src/backend.rs:806-863 | over every run a hit is the last data written, with no later stale mark; if that write gave a time to live and the server still counts, its expiry is exactly the one written plus drift less truncation |
| RedisFreshness.HitIsNeverFresher | hitbox-redis/src/backend.rs:806-863 | over every run, when the server still counts down and truncation absorbs the drift, a hit is never judged fresher than the value as written, even if older fields survived |
| RedisFreshness.HitGoesStale | hitbox-redis/src/backend.rs:806-838 | over every run, a hit whose last write gave a stale instant is stale from that instant, and actual until a millisecond before it, up to its own expiry |
| RedisFreshness.HitIsFresherByDriftAtMost | hitbox-redis/src/backend.rs:806-863 | whatever the drift, freshness is off by at most the latencies and a millisecond |
| RedisFreshness.ExpiryIsKeptIff | hitbox-redis/src/backend.rs:831-833 | for every hit, the expiry read back is no later than the one written if and only if the value never expires or the server counts down to no later instant, with the drift absorbed where the write gave a time to live |
| RedisFreshness.FreshnessIsKeptIff | hitbox-redis/src/backend.rs:806-863 | for every hit of every run, it is never judged fresher than the value as written, at any time, if and only if that holds |
| RedisFreshness.DriftMakesFresher | hitbox-redis/src/backend.rs:831-858 | a run on one clock, with a second left and time still counted, whose hit is fresh at the instant the value written expires |
| RedisFreshness.StillClocksAddNothing | hitbox-redis/src/backend.rs:831-858 | on a millisecond clock that stands still during each pipeline there is no drift |
| Redis.SubSecondExpiryIsLost | hitbox-redis/src/backend.rs:853-858 | with less than a second left and no older deadline, the value is read back as one that never expires |
| Redis.SubSecondKeepsOlderDeadline | hitbox-redis/src/backend.rs:853-858 | over a live key with a deadline, a value with less than a second left is read back as living until that deadline |
| Redis.OverwriteKeepsOldInstants | hitbox-redis/src/backend.rs:845-849 | an overwrite that carries neither instant keeps both of the value it replaces |
| Redis.DeadKeysLendNothing | hitbox-redis/src/backend.rs:840-863 | over a key that has run out a write leaves its own data, stale mark and deadline and nothing older |
| Redis.WriteLostAtOldDeadline | hitbox-redis/src/backend.rs:851-861 | a write whose key runs out between its two commands is lost |
| Redis.RedisBackend.Write | hitbox-redis/src/backend.rs:840-863 | the command built in place and the pipeline leave the hash as specified |
| Redis.RedisBackend.Read | hitbox-redis/src/backend.rs:806-838 | the reply's fields and remaining time become the value |
| Redis.RedisBackend.Remove | hitbox-redis/src/backend.rs:865-879 | the hash is gone; deleted is reported exactly when it was live |

## Left out

- The request state machine, offloading, predicates and extractors: the request machine appears as an
  environment that may call check, resolve and cleanup or drop a permit at any time.
- A global bound on concurrent upstream calls per key: a removed entry's holders may still run beside a new
  generation, which `OldHoldersMayStillRun` shows.
- Permits abandoned without a resolve or cleanup: waiters then stay pending until someone resolves or cleans
  up, as `WaiterGetsWhatIsOwed` says of a generation in the map; no fairness or progress of callers is modelled.
- Transparency of `collect` on error and survival of trailers: false of the code; the exact conditions are proved.
- Expiry and staleness through a composition's `Backend::write`: the format writes none into the envelope, so
  theorems below a composition speak of data, and `TypedSetThenGet` says which leaves keep instants.
- The epoch instant in an envelope: indistinguishable from no instant, hence excluded by `EnvelopeRoundTrip`.
- GetRefillGet: stated for sequential reads above an empty layer one, because after a refill a race or a comparison
  of remaining times may still answer from layer two.
- OwnEncodingsIffCoherent: assumes that no leaf's bytes pass for an envelope, since those would be opened by accident
  further down, that the leaves start without the key, since they might already hold what is not written, and that
  every race is over.
- OffloadedWritesArrive: stated with nothing failing and no other operation on the key before the jobs are done;
  what one job does whenever it runs is `LateLoserOverwrites`.
- HitIsNeverFresher: assumes that truncation absorbs the drift, which `FreshnessIsKeptIff` shows to be needed; without it
  `HitIsFresherByDriftAtMost` bounds the error.
- The second refill branch (hitbox-backend/src/composition/mod.rs:850-894): a layer-two wrapper always reports
  refill mode, so the branch before it takes every such call.
- A composition hidden behind `dyn Backend` as layer two of a typed composition: in a refill it takes the default
  `set`, which writes nothing; the typed set here always knows its composed layers.
- One leaf reached along two paths of a tree, and other users of a leaf's storage: `Separate` excludes the first.
- A race's dropped loser stopped inside a nested write, or an offloaded one observed inside it: each is taken to have
  run entirely or not at all by the next operation.
- What a failing leaf left behind: a leaf that fails is taken to have changed nothing.
- Error texts, metrics and tracing; errors keep only which leaf failed and how failures combine.
- Concurrent callers of one tree: an operation runs on the stores as one step.
- `u32` overflow of summed delete counts, which needs more than four billion leaves.
- Leap-second nanoseconds in timestamps.
- Formats and compressors themselves, and memory alignment of the header cast.
- Pending wakeups of streams and `http_body_util`'s own buffering; a body's frames are a finite list.
- Bit packing inside the compact key format: columns are sequences of numbers, flags and strings, and a column
  ends where its count says.
- Display of keys, which does not separate `=` and `&` inside parts.
- Connection handling, cluster modes and partial pipeline failures of Redis; its serialized keys are opaque here.
- Other clients' commands between the commands of one Redis pipeline.
- Redis deadlines beyond 64-bit milliseconds.
- The remaining backends, configuration, adapters and examples.
