# A verified model of the CometBLS light client, its wire format and its prover service

This project models four parts of the repository in Dafny 4.11 and proves what they keep. Run
`dafny verify dfyconfig.toml` to check everything.

**The light client (`11-cometbls`).** `ClientModel` is the client as a state machine over a plain
map from heights to consensus states: create, submit a header, submit misbehaviour, prune all
expired states, recover from a substitute. `ClientStores.ClientStore` is the store as the source
keeps it: one byte-keyed map, with text keys for the values and big-endian iteration keys for the
order, changed key by key. Every method is proved to act on the plain map as the state machine
says, and `StoreRuns` composes them: a whole run on the bytes is the run of the state machine, so
what `ClientRuns`, `Returns`, `Delays`, `Pruning` and `Recovery` prove about runs holds of the
byte-keyed store.
`ClientMeaning` says every call once more in plain numbers and fields, and `ClientHistory` traces every
stored entry back to the call that wrote it. `Wrap` has the runs on which 64-bit wrap-around breaks a
promise.
The store relies on the keys only through the laws in `StoreKeys.KeyScheme`: no two keys meet, the
prefix marks the iteration keys, and those sort by height. `StoreKeys.KeysAreLawful` proves the
laws for the keys of the source, which every new store uses.

The host module that calls the client (02-client) is not part of this model except for its order
of calls: it creates a client once in an empty store; for a header it requires the client to be
Active, verifies the header, and then freezes if there is misbehaviour or updates if there is none.
The zero-knowledge check is an arbitrary predicate, different at every step if one likes. Integers
are 64 bits wide where the source's are, and their wrap-around is written out.

**The wire format (`cometbls.pb.go`).** `Varint` has the varint loops and the size formula, `Wire`
the tag loop and the skipping of unknown fields, `Messages` the five messages as field tables and
`Marshal` the encoders that fill a buffer from its end. The five generated decoders are one
text with different field tables, so they are one loop here, given the table. Heights, Merkle roots
and times are encoded by other packages: they appear as sub-codecs that may refuse a value, and the
round trips assume only that the values inside the message at hand survive their own sub-codec
(`HeightCodecRoundTrips` shows a codec of the same make that meets the assumption for every height). The format is that of
the Protocol Buffers Encoding specification, sections "Base 128 Varints", "Message Structure" and
"Groups". `WireGrammar.DecodeAcceptsGrammar` says without positions or loops which inputs a decoder
accepts and what they mean. `MessageFormat` writes the bytes of the five messages out, tag by tag, and
says which field each tag sets.

**The proof-job protocol (`galoisd/grpc`).** `Poll` is the protocol of both servers as interleaved
atomic steps of any number of pollers and workers. `PollRefinement` says what it amounts to: a table
that runs each key once and a bounded number of keys at a time. `PollPromise` says what a "pending"
answer is worth, `PollSettle` that the protocol can always be brought to rest, and `PollHistory` from
which step of a run each result, answer and key comes.

**The public inputs.** `PublicInputs` has the bytes that prover and verifier hash, built on each side
by appending through a reused scratch array, and what those bytes determine.

## Where the code and its comments differ

The model follows the code.

- `11-cometbls/update.go:39` says that headers past the trusting period of the trusted state are
  rejected; the body does not look at the age of the trusted state.
- `11-cometbls/update.go:53-59` compares the revision of the header with that of the trusted height,
  but the header takes its revision from the trusted height (`11-cometbls/header.go:32-35`), so the
  two never differ.
- `11-cometbls/proposal_handle.go:46-47` speaks of copying states up to the latest height; only the
  latest one is copied.

## What turned out false

Each of these has a concrete input and the exact condition under which the property holds.

- "A stored entry never changes, and once it is pruned everything stored is above it."
  `Wrap.PrunedHeightReturns` is a run from the empty store: period 200; create height 5 with timestamp
  10 at block time 50; submit heights 6 and 7 with times 100 and 50 nanoseconds before 1970; prune at
  block time 105, which drops height 6 only; submit height 6 again. The property holds in a run exactly
  when no pruning meets a straddling store, in which a lower state's timestamp plus period stays below
  2^64 and above the block time while a higher one's wraps and has passed
  (`ClientRuns.RunKeepsOrPassesIff`, and for one pruning `ClientRuns.PruneAllKeepsOrPassesIff`). No run
  straddles when no submitted timestamp plus the trusting period reaches 2^64
  (`ClientRuns.OrdinaryRunIsOrderly`).
- "A pruned height never comes back." The same run. A height that goes while no lower state lives on
  never comes back (`Returns.PrunedNeverReturns`); one that goes out of order can, exactly then, for a
  client that is active at some later block (`Returns.PrunedReturnsIff`). What can be stored in a block
  at all is `Returns.StorableIff`.
- "A delay that has passed stays passed." In the same run height 6 comes back with a new processed
  time, and its delay runs again (`Wrap.PassedDelayRunsAgain`). The delays of a height stay passed
  along a run exactly when no pruning of the run finds that height expired (`Delays.DelaysStandIff`).
- "Pruning all expired states is pruning the oldest often enough": exactly in a store that does not
  straddle (`Pruning.PruneAllIsRepeatedPruneOldestIff`).
- "An accepted header leaves the client active." `Wrap.AcceptedHeaderCanExpire`: period 200, height 5
  with timestamp 10, block time 150, a header for height 7 at 100 nanoseconds before 1970 is accepted
  and the client is expired. `ClientRuns.AcceptedHeaderStaysActive` has the exact condition.
- "Recovery keeps the timestamps in order": it does not look at the subject's store
  (`Recovery.RecoveryCanBreakMonotone`). `Recovery.RecoveryKeepsInvariantIff` says exactly when one
  recovery keeps the order, and `Recovery.RunKeepsInvariantIff` says it of whole runs.
- "A pending answer means that the proof will run." For every cap there is a run in which a poller is
  told "pending" and the key is then withdrawn (`PollPromise.PendingIsNoPromise`). A pending key stays
  in every continuation exactly when a job runs for it (`PollPromise.PendingIsKeptIff`).
- "The public-input bytes determine the header": they lose the sign of the numbers and leading NULs of
  the chain id (`PublicInputs.SignAndLeadingZerosAreLost`). `PublicInputs.PreimageDetermines` says
  exactly what they determine.

## Model

| member | source | states |
|---|---|---|
| BigEndian.OrderIsNumeric | 11-cometbls/store.go:327-332 | on byte strings of one length the order of store iterators is the numeric order |
| StoreKeys.TextKeysInjective | 11-cometbls/store.go:115-149 | text keys of different heights, or of different kinds, are never the same bytes |
| StoreKeys.IterationKeyRoundTrip | 11-cometbls/store.go:183-216 | reading the height out of an iteration key gives the height it was built from |
| StoreKeys.IterationKeyOnto | 11-cometbls/store.go:208-216 | every key of that length under the prefix is the iteration key of the height read from it |
| StoreKeys.IndexOrderIsHeightOrder | 11-cometbls/store.go:327-332 | the byte order of the sixteen-byte heights is the order of heights |
| StoreKeys.KeysAreLawful | 11-cometbls/store.go:19-34 | all key families are disjoint and injective, and the prefix holds exactly the ordered index |
| StoreKeys.DecimalMeans | 11-cometbls/store.go:115-149 | the numbers in the text keys are digits without a leading zero that stand for the number |
| StoreKeys.KeyWords | 11-cometbls/store.go:36-45 | the words in the keys, letter by letter |
| StoreKeys.KeyTexts | 11-cometbls/store.go:115-149 | each text key is those words around the two numbers of its height |
| StoreKeys.IterationKeyText | 11-cometbls/store.go:183-189 | an iteration key is its prefix and both numbers, most significant byte first, in eight bytes each |
| ClientStores.ClientStore.constructor | 11-cometbls/store.go:19-34 | a new store represents the empty client under the keys of the source |
| ClientStores.ClientStore.Lookup | 11-cometbls/store.go:63-206 | a height has consensus state, processed time, processed height and an index entry pointing at its key together, or none of them |
| ClientStores.ClientStore.DeleteConsensus | 11-cometbls/store.go:354-358 | deleting the four keys of a height removes that height from the plain map and nothing else |
| ClientStores.SortedKeys | 11-cometbls/store.go:220-231 | a store iterator visits exactly the given keys, in strictly ascending byte order |
| ClientStores.ClientStore.Iterator | 11-cometbls/store.go:238-239 | walking a range of the index visits exactly the stored heights of that range, in order, each pointing at its consensus state |
| ClientStores.ClientStore.IterateConsensusStateAscending | 11-cometbls/store.go:220-231 | the lowest stored heights are reported once each, in ascending order, up to and including the first at which the callback stops; all of them if it never does |
| ClientStores.ClientStore.GetNextConsensusState | 11-cometbls/store.go:237-257 | the lookup over the byte index gives the state at the least stored height above the given one, in the plain map |
| ClientStores.ClientStore.GetPreviousConsensusState | 11-cometbls/store.go:262-274 | the lookup gives the state at the greatest stored height below the given one |
| ClientStores.ClientStore.Initialize | 11-cometbls/client_state.go:165-177 | the client state and the entry at its latest height are stored, whatever else is there stays |
| ClientStores.ClientStore.Status | 11-cometbls/client_state.go:78-106 | frozen before expired before active, a missing latest state counting as expired |
| ClientStores.ClientStore.VerifyHeader | 11-cometbls/update.go:41-106 | the checks on the store give the same error or success as on the plain map |
| ClientStores.ClientStore.CheckForMisbehaviour | 11-cometbls/misbehaviour_handle.go:18-58 | the check over the byte index is the check against the stored state or the two neighbours in the plain map |
| ClientStores.ClientStore.PruneOldestConsensusState | 11-cometbls/update.go:160-188 | the lowest height goes if it is expired, nothing else changes, and the panic is unreachable |
| ClientStores.ClientStore.PruneAllExpiredConsensusStates | 11-cometbls/store.go:279-306 | exactly the expired heights go and their number is returned; the early stop is unreachable |
| ClientStores.ClientStore.UpdateState | 11-cometbls/update.go:119-155 | pruning first, no change for a stored height, otherwise the entry and the latest height of the header |
| ClientStores.ClientStore.UpdateStateOnMisbehaviour | 11-cometbls/update.go:192-196 | the client is frozen and the consensus states stay |
| ClientStores.ClientStore.HandleHeader | 11-cometbls/misbehaviour_handle.go:30-37 | a header message in the order of the host acts as one step of the state machine |
| ClientStores.ClientStore.CheckSubstituteAndUpdateState | 11-cometbls/proposal_handle.go:28-81 | the subject takes over the substitute's latest entry and parameters, or nothing changes; the missing-metadata errors are unreachable |
| ClientStores.ClientStore.VerifyDelayPeriodPassed | 11-cometbls/client_state.go:266-303 | the delay check on the store is the delay check on the plain map, with the same errors |
| StoreRuns.Execute | 11-cometbls/update.go:19-196 | one host call on the byte-keyed store is one step of the state machine |
| StoreRuns.ExecuteAll | 11-cometbls/update.go:119-196 | a whole list of host calls on the bytes is the run of the state machine, recoveries included |
| StoreRuns.Replay | 11-cometbls/store.go:19-34 | after any run without recovery from a new store, a later height read back from the bytes has a later timestamp |
| ClientRuns.NeighbourCheckIsGlobal | 11-cometbls/misbehaviour_handle.go:20-51 | the neighbour check is false exactly when the new state conflicts with no stored state and keeps the whole store in time order |
| ClientRuns.RunKeepsInvariant | 11-cometbls/update.go:119-188 | along every run without recovery, timestamps strictly increase with height and the latest height is the top of one revision |
| ClientRuns.EveryRunIsMonotone | 11-cometbls/update.go:119-188 | the same from the empty store, for every sequence of calls |
| ClientRuns.AcceptedHeaderStaysActive | 11-cometbls/client_state.go:78-106 | an accepted header leaves the client active at the same block time exactly unless its own wrapped expiry has passed; always when the sum does not wrap |
| ClientRuns.VerifiedHeaderMeans | 11-cometbls/update.go:41-106 | for all inputs, a header verifies exactly when it extends a stored state: later and higher as unsigned numbers, below the block time plus drift as a signed one, chained if adjacent, and proved |
| ClientMeaning.NowMeans | 11-cometbls/client_state.go:95-95 | the clock of the client is the whole block time in nanoseconds since 1970, in 64 bits |
| ClientMeaning.StatusMeans | 11-cometbls/client_state.go:78-106 | frozen by a marker, else active exactly while the latest state is stored and its timestamp plus period, in 64 bits, is after the block time in nanoseconds |
| ClientMeaning.DelayMeans | 11-cometbls/client_state.go:266-303 | each outcome of the delay check, errors included, in nanoseconds and block heights |
| ClientMeaning.HeaderMeans | 11-cometbls/header.go:16-35 | a header stands for its height in the trusted revision and stores its time, its application hash and the validators of the next block |
| ClientMeaning.VerifyHeaderMeans | 11-cometbls/update.go:41-106 | each error of the verification and the inputs that get it |
| ClientMeaning.PruningMeans | 11-cometbls/update.go:126-130 | an executed or simulated transaction removes the lowest height if its period is over, every other transaction and every other height nothing |
| ClientMeaning.HeaderStepMeans | 11-cometbls/update.go:119-188 | what a header message does to any store in time order: nothing, a freeze if it contradicts any stored state, or pruning and storing its own fields |
| ClientMeaning.CreateMeans | 11-cometbls/client_state.go:165-177 | creation stores the given client state and one entry with the block time and height |
| ClientMeaning.MisbehaviourMeans | 11-cometbls/update.go:192-196 | misbehaviour sets the marker of an active client exactly when it verifies, and nothing else |
| ClientMeaning.PruneExpiredMeans | 11-cometbls/store.go:279-306 | pruning all keeps exactly the states whose period is not over at the block time in nanoseconds |
| ClientMeaning.RecoverMeans | 11-cometbls/proposal_handle.go:28-81 | each error of a recovery, and every field of the recovered client, which is never frozen |
| ClientHistory.EveryEntryHasOrigin | 11-cometbls/update.go:138-154 | in every run each stored entry was written by one call of the run out of that call's fields and has stood unchanged since |
| ClientHistory.AcceptedHeaderIsChained | 11-cometbls/update.go:82-105 | an accepted header goes back to the call that stored its trusted height: its proof is checked against the validators announced there, and the next block must come from exactly those |
| ClientRuns.AcceptedHeaderStores | 11-cometbls/update.go:132-154 | an accepted header is stored with the block's time and height unless it was there, no other entry changes, the latest height moves up |
| ClientRuns.AcceptedHeaderPrunes | 11-cometbls/update.go:126-130 | an accepted header removes at most one state: the lowest, expired, and not in a check-only transaction; that it does go is `PruningMeans` |
| ClientRuns.CreatedClient | 11-cometbls/client_state.go:165-177 | a created client holds its one state and is active exactly when it is not frozen and that state has not expired |
| ClientRuns.ConflictFreezes | 11-cometbls/misbehaviour_handle.go:24-51 | a verified header freezes an active client exactly when it conflicts with the stored state at its height or breaks the time order of the whole store |
| ClientRuns.RunKeepsFloor | 11-cometbls/update.go:46-75 | along every run without recovery the lowest stored height never moves down |
| ClientRuns.OrdinaryRunIsOrderly | 11-cometbls/client_state.go:104-106 | when no submitted timestamp plus the trusting period reaches 2^64, no pruning of the run meets a straddling store and no expiry sum wraps |
| ClientRuns.PruneAllKeepsOrPassesIff | 11-cometbls/store.go:285-296 | on a store in time order, pruning all expired states removes only heights below the rest exactly when the store does not straddle the 64-bit limit |
| ClientRuns.RunKeepsOrPassesIff | 11-cometbls/update.go:119-188 | in a run without recovery, an entry never changes while stored and all stored heights are above it once it is gone, exactly when no pruning meets a straddling store |
| Returns.RemovalLeavesAboveIff | 11-cometbls/store.go:285-303 | when a height goes, everything left is above it exactly when no lower state lives on |
| Returns.PrunedNeverReturns | 11-cometbls/update.go:126-154 | a height that was stored and went in that order is never stored again in any run without recovery, whatever happens to other heights |
| Returns.StorableIff | 11-cometbls/update.go:41-106 | some header for a height that is not stored is accepted in a block exactly when the client is active, its chain id fits, a lower state is stored and some time between the neighbours is below the limit |
| Returns.PrunedReturnsIff | 11-cometbls/store.go:279-306 | a height that a pruning drops is stored again in some continuation exactly when the pruning leaves a lower state, for a client that can still take the old header |
| ClientRuns.ResubmissionChangesNothing | 11-cometbls/update.go:126-136 | resubmitting a stored header keeps its entry and the client state although pruning runs first |
| Delays.EntryStandsIff | 11-cometbls/update.go:132-154 | a height stored at both ends of a run has the same entry exactly when every pruning spared it, else another processed time |
| Delays.DelayStaysPassed | 11-cometbls/client_state.go:266-303 | a delay that has passed for a height stays passed along every run whose prunings spare the height |
| Delays.DelaysStandIff | 11-cometbls/client_state.go:266-303 | all delays that have passed for a height stay passed along a run exactly when no pruning finds the height expired |
| Delays.OrderlyRunSpares | 11-cometbls/store.go:279-306 | a run whose prunings meet no straddling store spares every height that is still stored at its end |
| Delays.DelayPassedMeans | 11-cometbls/client_state.go:266-303 | for all inputs, a delay has passed exactly when each of its two parts is zero or the height is stored and the sum, starting again at zero past 2^64, is reached |
| ClientRuns.OnlyRecoveryThaws | 11-cometbls/update.go:192-196 | a frozen client keeps its client state and stores nothing in every run without recovery |
| Pruning.RepeatedPruneOldest | 11-cometbls/update.go:160-188 | in a store that does not straddle, prunings of the oldest remove one state each, until exactly the expired ones are gone; further ones remove nothing |
| Pruning.PruneAllIsRepeatedPruneOldestIff | 11-cometbls/store.go:279-306 | pruning all expired states is pruning the oldest some number of times exactly when the store does not straddle; the number is then the returned count |
| Pruning.PruneAllCounts | 11-cometbls/store.go:300-305 | the returned count is the drop in stored states and exactly the unexpired states stay |
| Wrap.PrunedHeightReturns | 11-cometbls/client_state.go:104-106 | a run from the empty store in which a height is stored, pruned and stored again, the pruning meeting a straddling store |
| Wrap.PassedDelayRunsAgain | 11-cometbls/client_state.go:266-303 | in that run a delay that had passed for a height is not passed afterwards |
| Wrap.AcceptedHeaderCanExpire | 11-cometbls/client_state.go:78-106 | a header is accepted and leaves its client expired at the same block time |
| Recovery.MatchingMeans | 11-cometbls/proposal_handle.go:85-98 | zeroing the other fields and comparing checks exactly unbonding period and clock drift |
| Recovery.RecoveryActivates | 11-cometbls/proposal_handle.go:37-80 | from an active substitute, recovery succeeds exactly when the two match, makes the subject active at the same time with the substitute's client state and latest entry, and keeps the other entries |
| Recovery.RecoveryKeepsInvariantIff | 11-cometbls/proposal_handle.go:55-70 | recovery keeps the run invariant exactly when the new state is the top of the store and passes the neighbour check |
| Recovery.RunKeepsInvariantIff | 11-cometbls/proposal_handle.go:55-70 | every state of a run with recoveries is in order exactly when every recovery puts its state on top of the store and passes the neighbour check there |
| Recovery.RecoveryCanBreakMonotone | 11-cometbls/proposal_handle.go:55-55 | a client created and frozen by misbehaviour, recovered from an active one, can hold an older time on top of a newer one |
| Migration.PruneExpiredConsensusStates | 11-cometbls/migrations/migrations.go:16-47 | every client is pruned and the total is the drop in stored states over all clients; the first client without state or with a state of another type stops the loop with its error, the clients before it pruned and the rest untouched |
| Migration.TotalIsTheDrop | 11-cometbls/migrations/migrations.go:23-40 | the counts of the clients add up to the drop in stored states |
| Varint.SovIsLength | 11-cometbls/cometbls.pb.go:756-758 | the bit-length size formula is the number of bytes that the encoding loop emits |
| Varint.EncodeVarint | 11-cometbls/cometbls.pb.go:637-647 | the loop writes the varint so that it ends at the offset, returns its start, and changes no other byte |
| Varint.DecodeVarint | 11-cometbls/cometbls.pb.go:767-781 | the or-and-shift loop computes the value and the index of the varint at the front, with its two errors |
| Varint.ReadBack | 11-cometbls/cometbls.pb.go:767-781 | reading an encoded 64-bit number gives it back and consumes exactly its bytes, whatever follows |
| Varint.EncodeMeans | 11-cometbls/cometbls.pb.go:637-647 | an encoded number is groups of seven bits, lowest first, that carry the number, end where they say and are as few as possible |
| Varint.ReadMeans | 11-cometbls/cometbls.pb.go:767-781 | reading takes the bytes up to the first that ends a number, at most ten, and gives their value cut to 64 bits; the two errors are ten continuing bytes and an early end |
| Wire.Skip | 11-cometbls/cometbls.pb.go:1585-1662 | the skipping loop ends on every input and advances by at least one byte on success |
| Wire.UnmarshalField | 11-cometbls/cometbls.pb.go:766-959 | one round of the tag loop: no index leaves the input, the index advances, each check gives its error |
| Wire.Unmarshal | 11-cometbls/cometbls.pb.go:762-966 | the tag loop ends on every input, with an error or with the whole input consumed |
| WireLaws.DecodeConcat | 11-cometbls/cometbls.pb.go:762-966 | decoding a concatenation is decoding the second part into the message of the first: the same message or the same error, the two errors for a length past the input counting as one |
| WireLaws.SkipAcceptsGrammar | 11-cometbls/cometbls.pb.go:1585-1662 | skipping inside the input succeeds exactly on varint, fixed, length-delimited fields and balanced groups of them |
| WireLaws.UnknownFieldIgnored | 11-cometbls/cometbls.pb.go:946-959 | a well-formed field with a legal number the message does not define, at any field boundary, leaves the message or the error unchanged, in the same sense |
| WireLaws.SkipErrors | 11-cometbls/cometbls.pb.go:1585-1662 | which error skipping gives for a stray end of group, an illegal wire type, a broken number and a negative length |
| WireLaws.TagErrors | 11-cometbls/cometbls.pb.go:782-789 | which error a decoder gives for an end of group and for a field number that is not positive |
| WireGrammar.DecodeAcceptsGrammar | 11-cometbls/cometbls.pb.go:762-966 | an input decodes to a message exactly when it is a list of fields of that grammar that fit the message type, and the message is what assigning them in order gives |
| Items.ItemsDecode | 11-cometbls/cometbls.pb.go:790-945 | decoding the bytes of a list of fields assigns the fields in order |
| Messages.ClientStateRoundTrip | 11-cometbls/cometbls.pb.go:384-432 | decoding the bytes of a client state into a fresh one gives it back |
| Messages.ConsensusStateRoundTrip | 11-cometbls/cometbls.pb.go:449-477 | the same for consensus states |
| Messages.LightHeaderRoundTrip | 11-cometbls/cometbls.pb.go:541-581 | the same for light headers, negative heights included |
| Messages.HeaderRoundTrip | 11-cometbls/cometbls.pb.go:598-635 | the same for headers, absent and present nested messages told apart |
| Messages.MisbehaviourRoundTrip | 11-cometbls/cometbls.pb.go:494-524 | the same for misbehaviour, through two levels of nesting |
| MessageFormat.ClientStateLayout | 11-cometbls/cometbls.pb.go:384-432 | the bytes of a client state with their tags written out, zero and empty fields absent |
| MessageFormat.ConsensusStateLayout | 11-cometbls/cometbls.pb.go:449-477 | the same for consensus states |
| MessageFormat.LightHeaderLayout | 11-cometbls/cometbls.pb.go:541-581 | the same for light headers |
| MessageFormat.HeaderLayout | 11-cometbls/cometbls.pb.go:598-635 | the same for headers |
| MessageFormat.MisbehaviourLayout | 11-cometbls/cometbls.pb.go:494-524 | the same for misbehaviour |
| MessageFormat.ClientStateNumbers | 11-cometbls/cometbls.pb.go:822-878 | which number of a client state each tag sets |
| MessageFormat.ClientStateFields | 11-cometbls/cometbls.pb.go:790-945 | which bytes or height of a client state each tag sets |
| MessageFormat.ClientStateWireTypes | 11-cometbls/cometbls.pb.go:790-945 | a field of a client state with the other wire type is an error |
| MessageFormat.ConsensusStateFields | 11-cometbls/cometbls.pb.go:995-1081 | which field of a consensus state each tag sets, and the error for the other wire type |
| MessageFormat.LightHeaderFields | 11-cometbls/cometbls.pb.go:1254-1407 | which field of a light header each tag sets |
| MessageFormat.LightHeaderWireTypes | 11-cometbls/cometbls.pb.go:1254-1407 | a field of a light header with the other wire type is an error |
| MessageFormat.HeaderFields | 11-cometbls/cometbls.pb.go:1458-1563 | which field of a header each tag sets, nested messages merged into what is there |
| MessageFormat.MisbehaviourFields | 11-cometbls/cometbls.pb.go:1132-1203 | which header of a misbehaviour message each tag sets |
| MessageFormat.UnknownNumbers | 11-cometbls/cometbls.pb.go:946-959 | the field numbers that each of the five messages skips are exactly those above its last one |
| Marshal.ClientStateSizeIsLength | 11-cometbls/cometbls.pb.go:648-672 | the size of a client state is the length of its bytes |
| Marshal.ConsensusStateSizeIsLength | 11-cometbls/cometbls.pb.go:674-690 | the size of a consensus state is the length of its bytes |
| Marshal.LightHeaderSizeIsLength | 11-cometbls/cometbls.pb.go:709-733 | the size of a light header is the length of its bytes |
| Marshal.HeaderSizeIsLength | 11-cometbls/cometbls.pb.go:735-754 | the size of a header is the length of its bytes |
| Marshal.MisbehaviourSizeIsLength | 11-cometbls/cometbls.pb.go:692-707 | the size of a misbehaviour message is the length of its bytes |
| Marshal.MarshalClientState | 11-cometbls/cometbls.pb.go:384-432 | backward marshalling fills exactly the last Size bytes before the end and leaves the rest of the buffer alone, or reports the error of a refused nested value with nothing changed from the end on |
| Marshal.MarshalConsensusState | 11-cometbls/cometbls.pb.go:449-477 | the same for consensus states |
| Marshal.MarshalLightHeader | 11-cometbls/cometbls.pb.go:541-581 | the same for light headers |
| Marshal.MarshalHeader | 11-cometbls/cometbls.pb.go:598-635 | the same for headers, the nested header written in place |
| Marshal.MarshalMisbehaviour | 11-cometbls/cometbls.pb.go:494-524 | the same for misbehaviour |
| Marshal.ClientStateOverTheWire | 11-cometbls/cometbls.pb.go:369-377 | marshalling into a buffer of exactly Size bytes and unmarshalling gives the client state back, or the error of a refused value |
| Marshal.MisbehaviourOverTheWire | 11-cometbls/cometbls.pb.go:479-487 | the same for misbehaviour, with all nested messages |
| Poll.RunKeepsInvariant | galoisd/grpc/server.go:368-430 | every interleaving keeps the protocol invariant |
| Poll.EveryInterleaving | galoisd/grpc/server.go:399-429 | in every interleaving the counter is the number of jobs holding a slot and within the cap; a key has at most one owner, one job and one proof run |
| Poll.ResultsAreForever | galoisd/grpc/server.go:412-421 | an admitted key never leaves the table and a stored result never changes |
| PollHistory.ResultsAreProved | galoisd/grpc/server.go:412-421 | in every run a result in the table is the outcome of a proof that ran for that key in the run |
| PollHistory.ProofIsStored | galoisd/grpc/server.go:412-421 | the outcome of a proof, whenever it is stored, is what the table holds for its key from then on |
| PollHistory.AnswersAreJustified | galoisd/grpc/server.go:368-403 | in every run each answer was given by a step of the poller itself: pending for a pending entry or the proof it started, finished for the outcome it found, busy for the entry it withdrew |
| PollHistory.KeysAreKept | galoisd/grpc/server.go:319-368 | in every run poller and job work on the key with which the poller arrived, and the key has one proof run once the job has started |
| Poll.FinishedAnswersAgree | galoisd/grpc/bls12381_server.go:218-245 | all finished answers for a key are the same, whenever given |
| Poll.NothingStuck | galoisd/grpc/server.go:399-421 | once every poller has its answer and every job has stored its outcome, the table holds a result for exactly the admitted keys |
| PollSettle.EveryRunCanSettle | galoisd/grpc/server.go:399-430 | from every reachable state some continuation answers every poller, stores every outcome and gives every slot back |
| Poll.CounterMoves | galoisd/grpc/bls12381_server.go:249-279 | the counter changes exactly on a successful compare-and-swap, by one, without overflow or underflow |
| Poll.FailedAdmissionMeansProgress | galoisd/grpc/server.go:405-428 | when the compare-and-swap of an admission fails, another one succeeded after this poller loaded the counter |
| Poll.FailedReleaseMeansProgress | galoisd/grpc/bls12381_server.go:249-279 | the same for the compare-and-swap that gives a slot back |
| Poll.BusyMeansFull | galoisd/grpc/server.go:400-403 | in every run, a poller that was turned away as busy made its own load of the counter while every slot was taken, and was on its way out from then on |
| PollPromise.PendingIsKeptIff | galoisd/grpc/server.go:368-421 | a pending key stays in the table in every continuation exactly when a job runs for it, as long as there are unused digests for the free slots |
| PollPromise.PendingIsNoPromise | galoisd/grpc/server.go:368-403 | for every cap and key there is a run in which a poller is told "pending" for the key, which is then withdrawn without a proof |
| PollRefinement.StepRefines | galoisd/grpc/server.go:368-430 | every atomic step is one allowed action, or none, of a table that runs each key once within its capacity |
| PollRefinement.RunRefines | galoisd/grpc/bls12381_server.go:218-280 | every interleaving is a run of that table |
| PollRefinement.AdmittedOnce | galoisd/grpc/server.go:399-410 | in a run of the table a key is admitted at most once |
| PublicInputs.FillBytes | 11-cometbls/zk_verifier.go:193-200 | the scratch array holds the number most significant byte first, and too large a number panics |
| PublicInputs.VerifierPreimage | 11-cometbls/zk_verifier.go:190-212 | the verifier's appends through the reused array give the eight-field layout, each word reading back as its value without sign, or panic exactly when a value does not fit |
| PublicInputs.ProverPreimage | galoisd/grpc/server.go:196-220 | the prover's appends give the same layout from its own header, word by word |
| PublicInputs.PreimageDetermines | 11-cometbls/zk_verifier.go:190-212 | two pre-images are equal exactly when the numbers in them and the application hashes are |
| PublicInputs.PreimageInjective | 11-cometbls/zk_verifier.go:190-212 | on well-formed headers the pre-image exists and determines all eight fields |
| PublicInputs.ProverAndVerifierAgree | galoisd/grpc/server.go:222-222 | prover and verifier hash the same bytes exactly when they speak about the same header and trusted validators |
| PublicInputs.SignAndLeadingZerosAreLost | 11-cometbls/zk_verifier.go:193-200 | the sign of a height and a leading NUL of a chain id do not reach the pre-image |
| PublicInputs.DigestNeverReduced | 11-cometbls/zk_verifier.go:212-216 | the 31-byte tail of the digest is below the BN254 scalar modulus, so no reduction happens and different tails stay different |
| PublicInputs.HashToField | 11-cometbls/zk_verifier.go:158-176 | the field element is never zero and in range, congruent to the keyed hash, and both panics are unreachable |

## Left out

- ClientStores.ClientStore.CheckSubstituteAndUpdateState: the order of one successful recovery is
  modelled; that the host calls it only for an inactive subject and an active substitute is not, since
  that check is in 02-client.
- ClientStores.ClientStore.VerifyHeader: a proof too short for the fixed slices of
  `11-cometbls/zk_verifier.go:68-90` panics in the source; here every proof that does not check is
  `InvalidProof`.
- ClientStores.ClientStore.CheckForMisbehaviour: an empty byte field and an absent one are the same value
  here, while the deep comparison of `11-cometbls/misbehaviour_handle.go:30` tells `nil` and an empty
  slice apart.
- Wire.Unmarshal: on an error the source leaves the message partly filled; here an error carries no
  message.
- The two-header comparison of `verifyMisbehaviour`: it compares pointers, so a misbehaviour message
  is a step that may freeze an active client.
- Headers without a signed header or trusted height: the source dereferences nil there, and the model
  takes headers that passed basic validation.
- Stored values are kept decoded; their encoding in the store wraps the messages in packages of ibc-go.
- Pairing checks, Groth16, curve arithmetic, SHA-256, HMAC and gnark proving: foreign cryptography,
  an arbitrary predicate or an argument here.
- ICS 23 membership proofs beyond the delay check, `consensus_host.go`, genesis export and upgrades:
  calls into libraries and keepers, or a constant error.
- The request checks at the start of `Poll`, hashing of requests to keys and building of responses:
  a key is the 32-byte hash, and requests with one hash are one request.
- Crashes of the prover process, and termination of a proof.
- `Marshal`, `MarshalTo` and the getters of the generated code: one call each.
- The clients in the other directories, web sites, deployment and SDKs: easy members or plumbing.
