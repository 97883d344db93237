# Elephant property-data subgraph mapping, in Dafny

This project models the event handlers of the Elephant subgraph
(`src/mapping.ts`). The handlers index the `DataSubmitted` and
`DataGroupHeartBeat` events of the `PropertyDataConsensus` contract. For
each event the mapping does the following:

1. It turns the event's `dataHash` into an IPFS CIDv1 identifier: the raw
   codec over a SHA-256 multihash, in lowercase base32 with the `b` prefix.
2. It fetches the content with up to three attempts. It stores the content
   and the content's `label`, or the `TIMEOUT` marker when every attempt
   failed.
3. It finds the property's county by following three linked documents:
   property, then `relationships.property_seed`, then `to`, then
   `county_jurisdiction`.
4. It saves a `Property` record.
5. It updates the county leaderboard tables when a county was found:
   `SubmitterCountyPair`, `SubmitterCountyLabelPair/Counter`,
   `SubmitterCountyCounter` and `CountyCounter`.
6. It updates the label tables when the label is present, non-empty and not
   `TIMEOUT`: `PropertyLabelPair`, `LabelCounter`, `PropertySubmitterPair`
   and `SubmitterLabelCounter`.

## Modules

- `Base32` holds the reference RFC 4648 base32 encoding (lowercase, no
  padding). It also holds the source's bit-accumulator loop, including the
  32-bit wrap-around of `value << 8`, and the proof that the loop computes
  the reference encoding.
- `Base32Vectors` holds the test vectors of section 10 of RFC 4648.
- `Cid` builds the identifier from the 36 bytes `01 55 12 20` followed by
  the digest.
- `Text` covers `toHexString`, `fromHexString` and decimal `toString`, with
  their round trips.
- `Json` models the graph-ts JSON values and the access pattern the mapping
  uses on them. That pattern is `toObject()`, then `get`, then a missing or
  null test, then `toString()`.
- `Ipfs` holds the host oracles and `fetchFromIPFSWithRetry`. The oracles
  are `ipfs.cat`, `json.try_fromBytes` and `Bytes.toString`. The k-th
  `ipfs.cat` call of a run answers `cat(k, cid)`, so one identifier may fail
  and later succeed. Each run keeps a trace of the identifiers it requested.
- `Resolver` models `extractCountyFromPropertyHash`.
- `Schema` and `Aggregates` hold the entities, the store (one table per
  entity, keyed by the string id) and the two update blocks.
- `Mapping` holds one event step and the two handlers that share it.
- `Invariants` holds what the aggregate tables mean, and the proof that
  every step and every run from the empty store preserves it.

graph-ts is not part of this model. It is assumed that `toObject()` and
`toString()` abort the handler when applied to a value of the wrong kind. A
step that reaches such an abort is `Aborted` and writes nothing.

AssemblyScript truthiness is modelled as written. A string is truthy when it
is non-null and non-empty, so a resolved county `""` is stored as null.

## Model

| member | source | states |
|---|---|---|
| Base32.Encode | src/mapping.ts:9-29 | n input bytes give between 8n/5 and 8n/5 + 1 symbols, that is ⌈8n/5⌉, all taken from the 32-letter lowercase alphabet |
| Base32.EncodeBase32 | src/mapping.ts:9-29 | the accumulator loop produces exactly the reference encoding: symbol k is the alphabet entry of stream bits 5k..5k+4, and the last group is padded with zero bits. This holds even though the 32-bit `value` wraps |
| Base32.EmitGroups | src/mapping.ts:18-21 | the inner loop leaves fewer than five bits pending, and every symbol it emits extends a prefix of the reference encoding |
| Base32.EmitRest | src/mapping.ts:24-26 | after the last byte, emitting the padded remainder (if any) completes the reference encoding |
| Base32.WrapKeepsPending | src/mapping.ts:15 | the i32 wrap-around of `value << 8` combined with `data[i]` keeps the at most twelve pending bits the loop still reads |
| Base32.ReadByte | src/mapping.ts:15-16 | shifting the next byte in extends the pending bits by that byte's eight stream bits |
| Base32.EmitGroup | src/mapping.ts:18-21 | with five or more bits pending, `(value >>> (bits - 5)) & 0x1f` is the next 5-bit group, and the remaining bits stay pending |
| Base32.EmitLast | src/mapping.ts:24-26 | the final 1 to 4 pending bits, shifted left to five, form the last group, and it is the last one |
| Base32.EncodeInjective | src/mapping.ts:9-29 | two inputs with the same encoding are equal, so the encoding loses no bits |
| Base32Vectors.Rfc4648Vectors | src/mapping.ts:5-29 | the encoding agrees with the seven test vectors of section 10 of RFC 4648, in lowercase and without padding |
| Cid.CidOf | src/mapping.ts:54-84 | an identifier has 59 characters: `b`, then symbols of the base32 alphabet |
| Cid.Bytes32ToCid | src/mapping.ts:54-84 | the two copy loops and the encoding yield the identifier of the digest's first 32 bytes |
| Cid.CidLayout | src/mapping.ts:60-77 | the encoded buffer has 36 bytes: version 1, raw codec 0x55, SHA-256 code 0x12, length 0x20, then the digest unchanged at positions 4..35 |
| Cid.CidPrefix | src/mapping.ts:54-84 | every identifier starts with `bafkrei`, the fixed header's symbols |
| Cid.CidInjective | src/mapping.ts:54-84 | two digests get the same identifier if and only if their first 32 bytes agree |
| Text.Hex | src/mapping.ts:197-203 | `toHexString` gives `0x` followed by two hex digits per byte, and contains no `-` |
| Text.HexRoundTrip | src/mapping.ts:92 | `Bytes.fromHexString` of a rendered hash gives back the hash |
| Text.HexInjective | src/mapping.ts:192 | distinct byte strings render differently |
| Text.DecimalRoundTrip | src/mapping.ts:192 | the decimal rendering of a log index reads back as that index |
| Text.DecimalInjective | src/mapping.ts:192 | distinct log indexes render differently |
| Schema.JoinInjective | src/mapping.ts:192 | an id `a-b` whose first part has no `-` determines both parts |
| Schema.InsertNew | src/mapping.ts:269-280 | load-or-create of a write-once entity: an existing record is kept, a missing one is created, and no other id changes |
| Json.Get | src/mapping.ts:109-130 | the `toObject`/`get`/null test/`toString` chain along a path. A `Found` string is the JSON string that plain navigation reaches; Json.GetFound gives the converse |
| Json.GetFound | src/mapping.ts:109-130 | a field read through `toObject`/`get`/`toString` yields `s` exactly when plain navigation reaches the JSON string `s` |
| Json.AtNest | src/mapping.ts:109-130 | navigating a path through a document built along it reaches the leaf |
| Json.GetNest | src/mapping.ts:178-185 | a string stored under a path is read back there |
| Ipfs.Attempts | src/mapping.ts:33-47 | the attempt loop from a given number of attempts left. It makes at most that many calls, and at least one when any is left; the full behaviour is Ipfs.AttemptsContract |
| Ipfs.FetchWithRetry | src/mapping.ts:32-51 | `fetchFromIPFSWithRetry`: between 1 and `maxRetries` calls when `maxRetries` is positive, and null with no call otherwise; the answer it returns is Ipfs.RetryContract |
| Ipfs.AttemptsContract | src/mapping.ts:33-47 | for any number of attempts left: at most that many calls, all on the same identifier; a result is the last call's answer and every earlier call failed; no result exactly when every allowed call failed |
| Ipfs.RetryContract | src/mapping.ts:32-51 | at most `maxRetries` calls to `ipfs.cat`, all on `cid`; the first answer is returned, and every earlier attempt failed; null is returned if and only if all `maxRetries` attempts failed |
| Ipfs.FetchFromIpfsWithRetry | src/mapping.ts:32-51 | the attempt loop returns the same answer, after the same calls, as the retry reference |
| Resolver.Follow | src/mapping.ts:96-130 | one hop (fetch, parse, read one field) makes between one and three `ipfs.cat` calls; when it links is Resolver.FollowContract |
| Resolver.ExtractCountyFromPropertyHash | src/mapping.ts:88-188 | the resolver makes at most nine `ipfs.cat` calls, and at least three when it returns a county; which county, and when null, is Resolver.ResolverContract and Resolver.ResolvedIff |
| Resolver.FollowContract | src/mapping.ts:96-130 | one hop makes 1 to 3 calls, all on its own identifier. It links to `target` if and only if a fetch answered, the answer parsed, and the field along the path is the string `target` |
| Resolver.ResolverContract | src/mapping.ts:88-188 | for a 32-byte hash: the first hop that breaks gives null, and the trace ends with that hop; a hop that reads a non-object or non-string aborts; the county is the string the third hop read |
| Resolver.ResolvedIff | src/mapping.ts:165-187 | the county is resolved to `c` if and only if all three hops link and the last hop reads `c` |
| Resolver.FirstHopFailFast | src/mapping.ts:96-128 | when the property document cannot be fetched, parsed or read, the result is null and every call made was on the property identifier, at most three |
| Resolver.CountyResolvable | src/mapping.ts:88-188 | the three links of Resolver.ResolvedIff can all be met: for any 32-byte hash and county `c`, a host whose documents hold the three links resolves `c`, one call per hop |
| Aggregates.ContainsCounty | src/mapping.ts:340-348 | the scan with early exit reports whether the county is already listed |
| Aggregates.AddCounty | src/mapping.ts:350-354 | the county is added only when absent: the list gains at most this one element, keeps its prefix, and stays duplicate-free |
| Aggregates.NewSubmitterCounter | src/mapping.ts:328-338 | a submitter counter is created for its submitter with no county listed, consistent, and with a county count within its total |
| Aggregates.BumpSubmitterCounter | src/mapping.ts:341-365 | the total rises by one, and the last activity moves to this event. The county list becomes old list plus county as a set, and a consistent count stays equal to the list length |
| Aggregates.Rate | src/mapping.ts:362-364 | `total / elapsed` for a positive elapsed time, the rate that times the elapsed seconds gives the total |
| Aggregates.MiningRate | src/mapping.ts:360-365 | once time has passed since the first activity, rate × elapsed seconds = total mined; otherwise the old rate is kept |
| Aggregates.CountyLabelIdInjective | src/mapping.ts:284 | `submitter-county-label` determines all three parts when the submitter and county have no `-` |
| Aggregates.CountyLabelIdCollision | src/mapping.ts:284 | a county containing `-` can share its id with another county and label |
| Aggregates.TrackCountyLabel | src/mapping.ts:283-324 | the submitter-county-label pair is written once; its counter rises by one (starting from zero); every other counter is untouched |
| Aggregates.TrackSubmitter | src/mapping.ts:327-367 | the submitter's total rises by one, and the county is listed for them. No listed county is lost, and consistency is kept. A new submitter starts with exactly this county, count 1, total 1. Other submitters are untouched |
| Aggregates.TrackCountyCounter | src/mapping.ts:377-385 | the county's count rises by one (from zero when new), and no other county changes |
| Aggregates.TrackCounty | src/mapping.ts:266-391 | the county block writes only the county tables. The submitter-county pair is created at most once and is then present. The submitter's total and the county's count each rise by one, created at zero, and the county is in the submitter's `uniqueCounties`. For a qualifying label the county-label pair is present and its counter rises by one; otherwise the county-label tables do not change |
| Aggregates.BumpLabelCounter | src/mapping.ts:409-417 | the label's counter rises by one (from zero when new), and no other label changes |
| Aggregates.BumpSubmitterLabelCounter | src/mapping.ts:441-451 | the `submitter-label` counter rises by one (from zero when new), and no other changes |
| Aggregates.TrackLabel | src/mapping.ts:394-460 | the label block writes only the four label tables. Each pair is created at most once, and a counter moves only when its pair is new |
| Mapping.DeriveContent | src/mapping.ts:213-245 | a failed fetch gives content `TIMEOUT:` + cid and label `TIMEOUT`. An answer gives its text as content. The step aborts exactly when the document parses but its `label` cannot be read as a string |
| Mapping.LabelFromDocument | src/mapping.ts:220-231 | the label is `l` if and only if the document parses and its `label` field is the JSON string `l` |
| Mapping.CountyRecorded | src/mapping.ts:248-255 | after a finished step the saved county is the resolver's answer when that is a non-null, non-empty string and null otherwise, and the county block (line 266) runs exactly in the first case |
| Mapping.PropertyId | src/mapping.ts:192 | the property id `txhash-logIndex`; two events share it only when they are the same log, which is Mapping.PropertyIdInjective |
| Mapping.PropertyIdInjective | src/mapping.ts:192 | two events share a property id only if they are the same log of the same transaction |
| Mapping.MakeProperty | src/mapping.ts:197-203 | the owner of a saved property is its submitter |
| Mapping.Aggregate | src/mapping.ts:265-460 | the properties table is not touched after the save. Without a county no county table changes, and without a qualifying label no label table changes |
| Mapping.ProcessEvent | src/mapping.ts:190-461 | one event step: when it finishes, the properties table gains exactly the event's id; what is stored, and how the aggregates move, is Mapping.PropertySaved, Mapping.CountyStep and Invariants.ProcessEventSound |
| Mapping.HandleDataSubmitted | src/mapping.ts:190-461 | `handleDataSubmitted`: when it finishes, the properties table gains exactly the event's id |
| Mapping.HandleDataGroupHeartBeat | src/mapping.ts:463-732 | `handleDataGroupHeartBeat`: when it finishes, the properties table gains exactly the event's id; Mapping.HandlersAgree shows it is the same step |
| Mapping.HandlersAgree | src/mapping.ts:463-732 | `handleDataGroupHeartBeat` has the same effect as `handleDataSubmitted` |
| Mapping.PropertySaved | src/mapping.ts:190-263 | the step finishes if and only if neither the label read nor the county lookup aborts. It then holds the event's property under its id, and no other property changes |
| Mapping.TimeoutRecorded | src/mapping.ts:236-245 | when no attempt answered, the saved property has label `TIMEOUT` and content `TIMEOUT:` + cid, and no label table changes |
| Mapping.LabelGate | src/mapping.ts:393-394 | a null, empty or `TIMEOUT` label leaves all four label tables unchanged |
| Mapping.CountyStep | src/mapping.ts:266-391 | with a county, the submitter's total and the county's count each rise by one, the county is listed for the submitter, and a qualifying label raises its submitter-county-label counter by one. Without a county, no county table changes |
| Invariants.KeysWhereInsert | src/mapping.ts:396-406 | recording a pair under a new id adds that id to the set of its own key and to no other |
| Invariants.CountNewPair | src/mapping.ts:396-417 | a new pair together with its counter raised by one keeps every counter equal to its number of pair ids |
| Invariants.EmptyStoreInv | src/mapping.ts:394-460 | the empty store satisfies the invariant |
| Invariants.ExtendsTransitive | src/mapping.ts:190-461 | "later state" composes across steps |
| Invariants.LabelPairsSound | src/mapping.ts:396-424 | after the (property, label) step, each `LabelCounter` still equals the number of `PropertyLabelPair` ids with its label. Pairs are never rewritten, and counters never drop |
| Invariants.SubmitterPairsSound | src/mapping.ts:427-459 | after the (property, submitter, label) step, each `SubmitterLabelCounter` still equals the number of `PropertySubmitterPair` ids with its submitter and label |
| Invariants.TrackLabelSound | src/mapping.ts:394-460 | the label block preserves the invariant and only grows the store |
| Invariants.TrackSubmitterWellFormed | src/mapping.ts:327-367 | every `uniqueCounties` stays duplicate-free, with `uniqueCountyCount` equal to its length and at most the total mined, and no total drops |
| Invariants.TrackSubmitterListsPairs | src/mapping.ts:266-367 | every recorded submitter-county pair, old or new, has its county in its submitter's `uniqueCounties` |
| Invariants.TrackSubmitterPairsLists | src/mapping.ts:266-367 | every county in a submitter's `uniqueCounties`, old or new, has its submitter-county pair recorded |
| Invariants.TrackSubmitterAgrees | src/mapping.ts:266-367 | a submitter's listed counties are exactly the counties of their `SubmitterCountyPair` records. No pair is rewritten |
| Invariants.TrackCountyLabelSound | src/mapping.ts:283-316 | every submitter-county-label counter has its pair recorded. Pairs are never rewritten, and counters never drop |
| Invariants.TrackCountyCounterMonotone | src/mapping.ts:377-385 | no county's count drops |
| Invariants.TrackCountyTablesSound | src/mapping.ts:266-391 | the county block keeps the submitters' counters well formed, in agreement with the submitter-county pairs, and every county-label counter with its pair |
| Invariants.TrackCountyExtends | src/mapping.ts:266-391 | the county block drops no record, rewrites no first-sighting pair and lowers no counter |
| Invariants.TrackCountySound | src/mapping.ts:266-391 | the county block preserves the invariant and only grows the store |
| Invariants.SaveSound | src/mapping.ts:262-263 | saving the property record keeps the invariant and drops no property id |
| Invariants.AggregateSound | src/mapping.ts:265-460 | the county block and then the label block together keep the invariant and only grow the store |
| Invariants.ProcessEventSound | src/mapping.ts:190-461 | an event step that finishes preserves the invariant. No property id is lost, no first-sighting pair is rewritten, and no counter drops |
| Invariants.Run | src/mapping.ts:190-461 | handling events in order: a finished run loses no property id and has saved a property for every event it handled |
| Invariants.RunSound | src/mapping.ts:190-461 | the same for every run of events that finishes |
| Invariants.LabelCountersExact | src/mapping.ts:393-424 | after any finished run from the empty store, `LabelCounter[l]` is the number of distinct `PropertyLabelPair` ids recorded with label `l` |

## Left out

- Logging (`log.info`, `log.warning`, `log.error`) has no effect on the store and is not modelled.
- The IPFS node, the JSON parser and the UTF-8 text decoding are oracles of `Host`. Timeouts are answers of `cat` that are null.
- There is no delay between retries in the source, so none is modelled.
- Integer-typed entity fields are unbounded here, not i32. A counter reaching 2^31 is not considered. The 32-bit wrap inside `encodeBase32` is modelled, because it changes which bits the loop reads.
- Aggregates.MiningRate: `propertiesPerSecond` is an exact rational. The rounding of graph-ts `BigDecimal` division is not modelled.
- Cid.Bytes32ToCid: requires a digest of at least 32 bytes. For a shorter one, AssemblyScript's bounds check on the typed-array index aborts the handler. The model aborts the same way, in the resolver, before the call. Event digests are `bytes32`, so they always have 32 bytes.
- Text.Hex: only the lowercase rendering that `toHexString` produces is modelled. `ParseHex` accepts both cases and an optional `0x`. graph-ts `Bytes.fromHexString` is not part of this model. An odd-length string aborts the resolver, as its length assertion does. The model also aborts on a non-hex digit, where graph-ts may decode something else. Such input cannot arise, because the argument is always `toHexString` output (Text.HexRoundTrip).
- Entity ids are the map keys. Writing the entity's own `id` field, and the order of `save()` calls within one handler, are not modelled. A handler either finishes and all its writes happen, or it aborts and none happen.
- Event and block fields other than those the handlers read are not modelled.
- Invariants.LabelCountersExact: counts distinct pair ids with a label, not distinct property hashes. They coincide because a pair id is `propertyHash-label` and the hash is hex without `-`, but that step is not proved.
- The `SubmitterCountyLabelPair`/`Counter` id is `submitter-county-label`. A county that contains `-` can collide with another (county, label) combination (`Aggregates.CountyLabelIdCollision`). The model keeps the source's id, and the invariants it proves do not depend on ids being collision-free.
