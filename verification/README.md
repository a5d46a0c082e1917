# Baldim, verified

Baldim is a document database over object storage. This project models its algorithmic core in
Dafny and proves what each part is for:

- **Multipart upload and task runner** (`Multipart.dfy`, `TaskRunner.dfy`). Concurrent workers share
  variables and interleave only at awaits; a schedule is any sequence of events, so the theorems
  hold for every interleaving and every pattern of failures. Classes hold the shared variables and
  refine the state machines.
- **Schema registries** (`SchemaRegistry.dfy`, `PluginRegistry.dfy`, over `KeyLedger.dfy`). Permanent
  attribute keys over every history of schema changes.
- **In-memory store** (`MemoryStore.dfy`, `MemoryStorage.dfy`, `StoreContents.dfy`,
  `StoreAccounting.dfy`, `StoreRecency.dfy`, `StoreConcurrency.dfy`). A byte counter with LRU eviction, snapshots and
  compare-and-swap writes, over every run.
- **Listing** (`Listing.dfy`, `ListingContents.dfy`, `KeysPage.dfy`, `KeyOrder.dfy`). Paged listing with delimiter grouping
  against one sorted listing, and the two offset loops on top of it.
- **Codecs** (`Base85.dfy`, `TextCompression.dfy`, `Metadata.dfy`, `MetadataForms.dfy`, `Dictionary.dfy`,
  `DictionaryCodes.dfy`, `Utf8.dfy`,
  `Base64.dfy`, `PercentEncoding.dfy`, `ArrayField.dfy`, `HexFields.dfy`, `PackedFields.dfy`,
  `Duration.dfy`, `Numerals.dfy`). Round trips, with the exact exceptions where there are some.
- **Field placement** (`BodyOverflow.dfy`, `Greedy.dfy`, `Calculator.dfy`) and **migrations**
  (`Migrations.dfy`, `MigrationSteps.dfy`, `MigrationManager.dfy`).

Code that updates objects or arrays in place is a class or a method with loops, proved equal to a
function on values; the theorems are lemmas about those functions and their runs. Text is a
sequence of Unicode scalar values, compared as JavaScript compares it, by UTF-16 code units.

Where the code does not keep what it seems to promise, the exact condition is proved and a concrete
input is given (for the last item the condition is only shown to be sufficient):

- A put that evicts the object it overwrites leaves the byte counter short by the old size
  (`StoreAccounting.WriteDrift`, `CounterCanDrift`). It can also happen to a put that shrinks an
  object, once the counter is over the budget.
- `"null"`, `"undefined"` and `"font/woff2"` do not survive the metadata encoding, nor do the twelve names
  that every object inherits, such as `"constructor"`: looking them up in the dictionary object finds a
  function (`MetadataEncoding.RoundTrip`, `InheritedNameIsLost`).
- What the metadata encoder stores is not always ASCII: the rest of a URL behind a prefix of the dictionary is
  copied as it is (`MetadataForms.EncodedIsAsciiIff`, `RestOfUrlIsCopied`).
- A page of size 1 that begins with the empty key ends the listing (`Listing.PagedListingIsTheListing`).
- `[""]` prints as the empty array; a version with minor or patch of 1000 or more, a time with
  minutes or seconds of 60 or more and a duration whose base-62 form begins with `P` do not come back.
- A field called `$overflow` and an empty version are lost in body-overflow, a field called
  `_pluginMap` that fits replaces the plugin map, and the overflow flag is not counted against the
  limit, so the metadata passes it when the kept fields leave less room than the flag needs
  (`BodyOverflow.PlacedSizeExceedsIff`).
- Two plugins can get the same key: the stored keys of a plugin are reserved only when its turn comes.
  The attribute of the earlier plugin then reads back as that of the later one
  (`PluginRegistry.MergedTablesLeadBackIff`, `StoredKeyCanClash`).
- Migrations are undone in the wrong order when `localeCompare` disagrees with the order of the
  files on some names, for instance by letter case, and when there are more than 1000 of them:
  the manager reads its records with `list()`, which returns the first 1000 by id. After an up of
  1001 files, down undoes the 1000th, reset leaves the last, and another up runs it again
  (`Migrations.LastInFirstOutIff`, `SecondPageBreaksTheStack`, `SecondUpRunsAgain`,
  `ResetLeavesTheRest`).
- A text that begins with `z:` or `z85:` and is stored uncompressed is read as compressed.

## Model

| member | source | states |
|---|---|---|
| `MultipartUpload.EveryScheduleUploadsTheBody` | adapters/s3/src/s3-client.class.ts:1113-1147 | under every interleaving and every pattern of failures, a completion call is made only when parts 1..totalParts have each been uploaded exactly once, its list is in part order, and the object the server assembles is the body; an abort implies that a part failed |
| `MultipartUpload.AbortedIffFailed` | adapters/s3/src/s3-client.class.ts:1132-1147 | every settled run ends with the abort if and only if a worker failed, and otherwise with the completion call |
| `MultipartUpload.FailureBlocksCompletion` | adapters/s3/src/s3-client.class.ts:1132-1147 | once a worker has failed, no continuation of the run ever sends the completion |
| `MultipartUpload.UploadAlwaysProgresses` | adapters/s3/src/s3-client.class.ts:1118-1134 | no interleaving gets stuck before completion or abort, and every event uses up a finite budget, so all runs end |
| `MultipartUpload.InFlightNeverExceeds` | adapters/s3/src/s3-client.class.ts:1111-1132 | the upload starts with exactly min(queueConcurrency or 4, totalParts), but at least one, uploads in flight, and on no schedule are there ever more |
| `MultipartUpload.RefusedIff` | adapters/s3/src/s3-client.class.ts:1091-1108 | refused are exactly the part sizes that are not positive and those below 5 MiB for a body that is larger than the part size |
| `MultipartUpload.ChunkSizes` | adapters/s3/src/s3-client.class.ts:1101-1124 | every part but the last has exactly the part size, and the last one is what is left, not empty unless the body is |
| `MultipartUpload.AllChunksAreTheBody` | adapters/s3/src/s3-client.class.ts:1101-1124 | parts 1..totalParts concatenate to the body |
| `MultipartUpload.CompletionIsExact` | adapters/s3/src/s3-client.class.ts:926-937 | the numerically sorted part list is 1..totalParts without gaps or repeats, the byte counter is the body length, and assembling it gives the body |
| `MultipartUpload.PutObjectMultipart` | adapters/s3/src/s3-client.class.ts:1085-1148 | the imperative upload refuses a non-positive part size and a too small one, and otherwise its shared variables go through exactly the runs of the state machine |
| `MultipartUpload.Upload.TakeNextPart` | adapters/s3/src/s3-client.class.ts:1119-1125 | one claim: read and increment of the shared counter, then the next upload or the end of the worker |
| `MultipartUpload.Upload.Handle` | adapters/s3/src/s3-client.class.ts:1125-1128 | one segment between two awaits keeps the invariant of the upload |
| `TaskRunner.EveryScheduleProcessesEachItem` | adapters/memory/src/runtime.ts:97-133 | under every interleaving and every pattern of failures, when process() resolves each item has been settled exactly once, its value stands at its own index, and results, errors and undefined values add up to the items |
| `TaskRunner.ResultsAreInItemOrder` | adapters/memory/src/runtime.ts:98-132 | for every finished run the results are the defined values in item order, whatever the order in which the items finished and failed |
| `TaskRunner.ResultsOfSuccess` | adapters/memory/src/runtime.ts:98-132 | if every item succeeds with a value, the results are those values, one for each item, and there are no errors |
| `TaskRunner.AttemptsAreBounded` | adapters/memory/src/runtime.ts:101-117 | no item has more than retries + 1 attempts, attempts of an item are numbered consecutively, and an item fails only after all of them |
| `TaskRunner.ConcurrencyIsBounded` | adapters/memory/src/runtime.ts:118-132 | at most `concurrency` different items are in progress at any moment, and no two workers share one |
| `TaskRunner.LaunchStartsAll` | adapters/memory/src/runtime.ts:118-131 | a batch starts with exactly the first min(concurrency, items) items in progress |
| `TaskRunner.LaterAttemptsWait` | adapters/memory/src/runtime.ts:101-117 | with a retry delay, on every schedule each attempt but the first at an item comes after a delay of its own |
| `TaskRunner.NoDelayNoWait` | adapters/memory/src/runtime.ts:117 | without a retry delay no worker ever waits |
| `TaskRunner.ProcessAlwaysProgresses` | adapters/memory/src/runtime.ts:101-131 | no interleaving gets stuck before all workers have returned, and every event uses up a finite budget of attempts and delays |
| `TaskRunner.Batch.Handle` | adapters/memory/src/runtime.ts:118-131 | one segment between two awaits updates next, values, failures and the counters as the state machine says and keeps its invariant |
| `TaskRunner.TasksRunner.Process` | adapters/memory/src/runtime.ts:97-133 | process() as a method: its answer and the instance counters after any run |
| `TaskRunner.TasksRunner.constructor` | adapters/memory/src/runtime.ts:90-95 | concurrency at least 1, retries and delay at least 0 |
| `SchemaRegistry.GenerateMapping` | core/src/schema.class.ts:224-283 | the registry, the two tables and the change flag that the generator returns, for any stored registry, also one whose nextIndex is too small |
| `SchemaRegistry.GeneratedRegistryEvolves` | core/src/schema.class.ts:241-280 | one call keeps the index of every attribute that stays, gives new attributes indices above every mapped and burned one, burns exactly the indices of attributes that leave, and leaves nextIndex above all of them |
| `SchemaRegistry.FreshIndicesAreConsecutive` | core/src/schema.class.ts:243-263 | new attributes get, in the order of their first occurrence, the stored nextIndex or, if that is too small, one above the largest used index, and the numbers after it without gaps; nextIndex becomes the first one left |
| `SchemaRegistry.FirstIndices` | core/src/schema.class.ts:224-263 | without a stored registry distinct attributes are numbered 0, 1, 2, ... |
| `SchemaRegistry.UnchangedAttributes` | core/src/schema.class.ts:239-283 | a call with the attributes that are mapped already, in any order, gives the stored registry back |
| `SchemaRegistry.KeysSurviveLowerCase` | core/src/concerns/base62.ts:39-61 | metadata keys are their own lower case, so keys that a provider lower-cases stay different |
| `SchemaRegistry.IndexIsNeverReassigned` | core/src/schema.class.ts:224-283 | over every history of attribute sets, an index seen for an attribute is never seen for another one, and in between the attribute never left |
| `SchemaRegistry.BurnedIndexIsForever` | core/src/schema.class.ts:265-280 | an index that is burned at any time, also one burned before the history began, stays burned and is never handed out again |
| `SchemaRegistry.OldKeysNeverMislead` | core/src/schema.class.ts:249-283 | a metadata key written under an old schema maps back under any later one to the same attribute or to none |
| `SchemaRegistry.RegistryMapsItsAttributes` | core/src/schema.class.ts:249-280 | after every call the registry maps exactly the current attributes, injectively |
| `SchemaRegistry.TablesAreInverse` | core/src/schema.class.ts:249-263 | mapping and reversedMapping are inverse to each other |
| `SchemaRegistry.ChangedIsExact` | core/src/schema.class.ts:239-280 | when the flag is raised the registry differs from the stored one; when it is not, the only difference can be attributes whose index was burned already, which a well-formed registry does not have |
| `KeyLedger.KeyIsPermanent` | core/src/schema.class.ts:265-280 | over every history a key stays with its attribute until that leaves, and is burned and unused from then on |
| `KeyLedger.BurnedIsForever` | core/src/schema.class.ts:265-280 | over every history a burned key stays burned and no attribute holds it, whenever and from whatever attribute it was burned |
| `KeyLedger.BurnRemoved` | core/src/schema.class.ts:265-280 | the clean-up loop burns each index that leaves once, keeps the others and reports whether it changed anything |
| `PluginRegistry.ProbeIsLeastFree` | core/src/schema.class.ts:203-209 | probing terminates with a key that is not used yet: the first free candidate |
| `PluginRegistry.Probe` | core/src/schema.class.ts:342-347 | the probing loop of the plugin registry finds that key, within the number of used keys |
| `PluginRegistry.ProbedKeyForm` | core/src/schema.class.ts:342-347 | the key is the hash itself when that is free, and otherwise the hash with the first decimal number from 1 on that makes it free |
| `PluginRegistry.AttributeHashForm` | core/src/schema.class.ts:188-195 | the hash is a p and, in lower case, the first three base-62 digits of the digest of plugin and attribute, with zeros in front of a shorter numeral |
| `PluginRegistry.GeneratePluginMapping` | core/src/schema.class.ts:197-217 | the loop computes the two tables of the specification |
| `PluginRegistry.PluginMappingInjective` | core/src/schema.class.ts:197-217 | attributes of all plugins get different keys, whatever the hash, and every attribute is mapped |
| `PluginRegistry.HashesWithoutCollision` | core/src/schema.class.ts:197-217 | when no two hashes collide every attribute has its own hash as key |
| `PluginRegistry.GeneratePluginMappingFromRegistry` | core/src/schema.class.ts:289-377 | the grouping loop over plugins produces registries that each evolve from the stored one, and the merged tables that the next three rows are about |
| `PluginRegistry.MergedTablesLeadBackIff` | core/src/schema.class.ts:307-344 | for well-formed stored registries, the merged mapping has the key of each attribute from the registry of the last plugin that names it, and the merged reversedMapping leads from that key back to the attribute if and only if no later plugin of the call had the key stored for one of its attributes already |
| `PluginRegistry.MergedMappingIsTotal` | core/src/schema.class.ts:301-352 | for well-formed stored registries, the merged mapping has an entry for every attribute of the call and no other |
| `PluginRegistry.StoredKeyCanClash` | core/src/schema.class.ts:307-352 | whatever the digest, an earlier plugin can be given the key that a later one has stored, and its attribute then reads back as the other one |
| `PluginRegistry.GeneratedPluginEvolves` | core/src/schema.class.ts:326-371 | one call for one plugin keeps its stored keys, gives new attributes keys that are not reserved, and burns the keys of attributes that leave |
| `PluginRegistry.NewKeyIsItsHash` | core/src/schema.class.ts:336-353 | a new attribute gets its own hash unless that is reserved or goes to another attribute of the plugin |
| `PluginRegistry.UnchangedPlugin` | core/src/schema.class.ts:326-371 | a call with the attributes that are mapped already leaves the registry of the plugin as it was |
| `PluginRegistry.PluginKeyIsNeverReassigned` | core/src/schema.class.ts:289-377 | over every history in which the plugin keeps at least one attribute, two attributes that ever hold the same key are one attribute, which held it all the time in between |
| `PluginRegistry.BurnedPluginKeyIsForever` | core/src/schema.class.ts:354-371 | over every such history a key of the plugin that is burned at any time, also before the history began, stays burned and is never handed out again |
| `Numerals.DecodeEncode` | core/src/concerns/base62.ts:7-38 | decoding a printed number gives it back, in base 62 as in base 36, 16 and 10 |
| `Numerals.DigitsAreTheAlphabet` | core/src/concerns/base62.ts:1-5 | the digits are 0 to 9, a to z, A to Z, in this order |
| `Numerals.EncodeLoop` | core/src/concerns/base62.ts:7-18 | the prepending loop prints the positional numeral |
| `Numerals.DecodeLoop` | core/src/concerns/base62.ts:20-38 | the reading loop computes its value, or not-a-number exactly when some character is no digit |
| `Listing.PagedListingIsTheListing` | adapters/memory/src/memory-storage.class.ts:437-510 | for every store, prefix, delimiter, startAfter and page size of at least one, following the continuation tokens ends, and unless the empty key stands alone on a page of size 1 before others - and only then not - no page is over its limit, the ungrouped keys are those of the one-page listing once and in order, and so are the common prefixes after dropping repeats across page breaks |
| `Listing.EmptyKeyHidesTheRest` | adapters/memory/src/memory-storage.class.ts:492-494 | the exception: with page size 1, no startAfter and an empty key in the listing, the first page has no token and the other keys are never seen |
| `Listing.FollowingIsCutting` | adapters/memory/src/memory-storage.class.ts:453-494 | the pages that a client gets are consecutive cuts of the sorted matching keys |
| `Listing.ContinuingIsTheRest` | adapters/memory/src/memory-storage.class.ts:453-455 | filtering by the last key of a page leaves exactly the keys after it |
| `Listing.TokenRoundTrip` | adapters/memory/src/memory-storage.class.ts:96-120 | a continuation token decodes to the key it was made of and passes its own validation |
| `Listing.TokenIsAcceptedIff` | adapters/memory/src/memory-storage.class.ts:96-120 | a token is accepted, for a key, exactly when it is what encoding the key gives, up to surrounding white space and padding |
| `ListingContents.CommonPrefixIs` | adapters/memory/src/memory-storage.class.ts:122-139 | the common prefix of a key that has the requested prefix runs to the end of the first delimiter behind that prefix, and there is none exactly when no delimiter occurs there |
| `ListingContents.WholeListing` | adapters/memory/src/memory-storage.class.ts:437-494 | a page that is large enough holds, in order, exactly the keys with the prefix and behind startAfter that have no common prefix, and the common prefix of each other such key once |
| `ListingContents.PageWithTokenIsFull` | adapters/memory/src/memory-storage.class.ts:463-494 | a page with a continuation token has exactly maxKeys entries |
| `Listing.GroupIsAPrefixClass` | adapters/memory/src/memory-storage.class.ts:122-139 | keys that begin with a common prefix have that common prefix: groups are classes of the key order |
| `Listing.LabelsAreContiguous` | adapters/memory/src/memory-storage.class.ts:470-478 | in sorted keys each group is one contiguous run, so a page boundary can split but not scatter it |
| `Listing.DistinctIsCollapse` | adapters/memory/src/memory-storage.class.ts:460-478 | collecting prefixes in a set is the same as dropping neighbouring repeats |
| `Listing.ScanPage` | adapters/memory/src/memory-storage.class.ts:459-494 | the scanning loop computes contents, prefixes and token of the specification |
| `Listing.List` | adapters/memory/src/memory-storage.class.ts:437-510 | sort, prefix filter, start key and scan; an invalid token is an error |
| `KeyOrder.KeyLessIsUnitsLess` | adapters/memory/src/memory-storage.class.ts:439 | the key order is the order of UTF-16 code units that Array.sort uses |
| `KeyOrder.PrefixesAreContiguous` | adapters/memory/src/memory-storage.class.ts:442-444 | between two keys with a prefix stand only keys with that prefix |
| `KeysPage.MemoryKeysPage` | adapters/memory/src/memory-client.class.ts:417-460 | getKeysPage returns exactly the slice [offset, offset + amount) of the sorted matching keys |
| `KeysPage.TokenAfterOffset` | adapters/s3/src/s3-client.class.ts:1403-1433 | over any server that fills its pages, the seek loop ends exactly on the offset, or with no token when there is nothing after it |
| `KeysPage.S3KeysPage` | adapters/s3/src/s3-client.class.ts:1435-1486 | the S3 client returns exactly the same slice |
| `MemoryStorage.MemoryStorage.PutObject` | adapters/memory/src/memory-storage.class.ts:181-260 | limits, the two preconditions, eviction, the write and the counter: result and whole new state |
| `MemoryStorage.MemoryStorage.GetObject` | adapters/memory/src/memory-storage.class.ts:262-313 | the stored object, moved to the end of the recency order, or NoSuchKey |
| `MemoryStorage.MemoryStorage.HeadObject` | adapters/memory/src/memory-storage.class.ts:315-343 | the same without the body |
| `MemoryStorage.MemoryStorage.CopyObject` | adapters/memory/src/memory-storage.class.ts:345-386 | a put of the source body with replaced, merged or copied metadata; the source is not touched |
| `MemoryStorage.MemoryStorage.DeleteObject` | adapters/memory/src/memory-storage.class.ts:392-412 | removes one key and its size from the counter |
| `MemoryStorage.MemoryStorage.DeleteMultiple` | adapters/memory/src/memory-storage.class.ts:414-435 | a series of deletes |
| `MemoryStorage.MemoryStorage.List` | adapters/memory/src/memory-storage.class.ts:437-510 | the listing of the keys that are stored |
| `MemoryStorage.MemoryStorage.TakeSnapshot` | adapters/memory/src/memory-storage.class.ts:512-534 | all entries, in order |
| `MemoryStorage.MemoryStorage.RestoreSnapshot` | adapters/memory/src/memory-storage.class.ts:536-573 | replaces the content, recounts it and trims it to the budget; a missing snapshot changes nothing |
| `MemoryStorage.MemoryStorage.EvictIfNeeded` | adapters/memory/src/memory-storage.class.ts:681-719 | collecting and deleting the victims has the effect of the specification |
| `MemoryStorage.MemoryStorage.ChooseVictims` | adapters/memory/src/memory-storage.class.ts:690-700 | the first loop collects the oldest keys and their total size |
| `MemoryStorage.MemoryStorage.TouchKey` | adapters/memory/src/memory-storage.class.ts:673-679 | moves a key to the end and keeps the map well formed |
| `MemoryStorage.MemoryStorage.GetKeys` | adapters/memory/src/memory-storage.class.ts:654-656 | the stored keys in code-unit order |
| `MemoryStorage.MemoryStorage.Clear` | adapters/memory/src/memory-storage.class.ts:721-730 | back to the empty store |
| `MemoryStore.RunKeepsWellFormed` | adapters/memory/src/memory-storage.class.ts:228-246 | on every run keys are unique, recorded sizes are body lengths and tags are digests of the bodies |
| `MemoryStore.SnapshotRoundTrip` | adapters/memory/src/memory-storage.class.ts:512-573 | restoring a snapshot of a reachable store, into any store, gives back every object in order with an exact counter when it fits the budget, and otherwise all but the oldest |
| `MemoryStore.DeleteAllIsARun` | adapters/memory/src/memory-storage.class.ts:414-435 | deleting several keys is a run of single deletes |
| `StoreAccounting.CounterOverRuns` | adapters/memory/src/memory-storage.class.ts:228-246 | over every run of a new store the stored bytes are the counter plus the old sizes of the objects that were evicted by their own overwrite since the last clear or restore |
| `StoreAccounting.WriteDrift` | adapters/memory/src/memory-storage.class.ts:228-246 | one write makes the counter fall short by exactly the old size when it evicts the object it overwrites, and by nothing otherwise |
| `StoreAccounting.EvictedItself` | adapters/memory/src/memory-storage.class.ts:231-246 | when that happens, in terms of the sizes before the write: the entries older than the key do not make enough room |
| `StoreAccounting.CounterCanDrift` | adapters/memory/src/memory-storage.class.ts:228-246 | a concrete case: a store of 12 bytes that counts 6 |
| `StoreAccounting.EvictionIsTheShortestPrefix` | adapters/memory/src/memory-storage.class.ts:681-719 | an eviction removes exactly the shortest prefix of the recency order that makes room, or everything if none does; the survivors keep contents and order |
| `StoreAccounting.PeakBoundsCounter` | adapters/memory/src/memory-storage.class.ts:666-671 | the peak is never below the counter, on every run |
| `StoreAccounting.PeakIsTheMaximum` | adapters/memory/src/memory-storage.class.ts:666-671 | on every run the peak is the largest value of the counter since the statistics were last set anew |
| `StoreAccounting.StoredBytesAreBounded` | adapters/memory/src/memory-storage.class.ts:231-246 | when every object fits the budget on its own, the stored bytes stay within the budget plus what self-evicting writes made the counter miss |
| `StoreAccounting.NewKeyFitsTheBudget` | adapters/memory/src/memory-storage.class.ts:231-246 | with a correct counter, an object that fits leaves the store within budget under a new key |
| `StoreContents.PutThenRead` | adapters/memory/src/memory-storage.class.ts:228-260 | a put that succeeds is read back as it was sent by get and, without the body, by head, within the limits, with the tag that the put returned; every other key keeps its object or loses it to an eviction |
| `StoreContents.PutFailsIff` | adapters/memory/src/memory-storage.class.ts:152-222 | a put fails exactly for metadata or a body over an enforced limit or a precondition that does not hold, with the error of the first of these, and then changes nothing |
| `StoreContents.MetadataSizeIsItsText` | adapters/memory/src/memory-storage.class.ts:141-150 | the size held against the limit is the UTF-8 length of all names and values |
| `StoreContents.CopyThenRead` | adapters/memory/src/memory-storage.class.ts:345-386 | a copy has the body of its source, its type unless another one is given, and each metadata field from the request or the source as the directive says |
| `StoreContents.DeleteThenRead` | adapters/memory/src/memory-storage.class.ts:392-412 | a deleted key is gone and no other key changes |
| `StoreContents.ReadChangesNoObject` | adapters/memory/src/memory-storage.class.ts:262-343 | get and head change no object, only the recency order |
| `StoreRecency.ReadKeyOutlivesUntouchedKeys` | adapters/memory/src/memory-storage.class.ts:673-712 | on every run, a key just read by get or head is still there as long as any key that was not touched since |
| `StoreRecency.WriteKeepsOrder` | adapters/memory/src/memory-storage.class.ts:228-246 | a write evicts from the front of the recency order, puts a new key at its end and leaves every other key, also an overwritten one, in its place |
| `StoreRecency.ReadMovesToEnd` | adapters/memory/src/memory-storage.class.ts:673-679 | a read moves its key to the end of the recency order and leaves the others in their places |
| `StoreConcurrency.PutIfMatchSucceedsIff` | adapters/memory/src/memory-storage.class.ts:187-206 | a put with the tag of an earlier read succeeds exactly when the stored body at that moment is the body that was read |
| `StoreConcurrency.IfMatchListHolds` | adapters/memory/src/memory-storage.class.ts:187-191 | a list of strong and weak tags matches exactly when the stored body is that of one of them |
| `StoreConcurrency.IfNoneMatchListHolds` | adapters/memory/src/memory-storage.class.ts:204-222 | If-None-Match with a list of tags holds exactly when the stored body is that of none of them, and with a star exactly when nothing is stored |
| `StoreConcurrency.SuccessfulWritesFormAChain` | adapters/memory/src/memory-storage.class.ts:186-244 | in every interleaving a conditional put that succeeds was based on the very last version stored |
| `StoreConcurrency.NoUpdateIsLost` | adapters/memory/src/memory-storage.class.ts:186-244 | when all writers read, apply f and write back conditionally, the stored body is f applied once for each success |
| `StoreConcurrency.AtMostOneCreator` | adapters/memory/src/memory-storage.class.ts:208-225 | of racing creators, each success needs its own absence of the key; while it stays at most one succeeds; at any moment a put with If-None-Match "*" succeeds exactly when the key is absent |
| `ETags.NormalizePrinted` | adapters/memory/src/runtime.ts:43-47 | a header that lists quoted strong and weak tags is read back as the tags |
| `TextLists.SplitJoin` | adapters/memory/src/runtime.ts:45 | splitting undoes joining for parts without the separator |
| `Base85.RoundTrip` | adapters/memory/src/text-compression.ts:44-128 | decoding undoes encoding for every byte string, with shortened last groups |
| `Base85.LettersAreTheAlphabet` | adapters/memory/src/text-compression.ts:27-32 | the letters are, in the order of the characters, all from ! to y but quotes, backslash and backtick |
| `Base85.GroupRoundTrip` | adapters/memory/src/text-compression.ts:62-125 | a group of 1 to 4 octets survives dropping digits and padding with 84, and no value leaves 32 bits |
| `Base85.EncodeBase85` | adapters/memory/src/text-compression.ts:44-83 | the loop fills an array of exactly the computed length with the encoding |
| `Base85.DecodeBase85` | adapters/memory/src/text-compression.ts:90-128 | the loop fills a buffer of exactly the computed length with the decoding |
| `TextCompression.CompressionRoundTrip` | adapters/memory/src/text-compression.ts:135-182 | decompression undoes compression unless the text is stored uncompressed and itself begins with a marker |
| `TextCompression.CompressionNeverGrows` | adapters/memory/src/text-compression.ts:135-157 | the marked compressed form is stored exactly when the text reaches the threshold and that form is shorter than its octets; what is stored is never longer than the text |
| `TextCompression.BareMarkerIsLost` | adapters/memory/src/text-compression.ts:135-182 | a text for which it does not: the bare marker |
| `Utf8.RoundTrip` | adapters/memory/src/metadata-encoding.ts:275 | UTF-8 (section 3 of RFC 3629) reads back every well-formed text |
| `Utf8.KnownEncodings` | adapters/memory/src/metadata-encoding.ts:275 | the examples of section 7 of RFC 3629 |
| `Base64.RoundTrip` | adapters/memory/src/metadata-encoding.ts:275 | base64 (section 4 of RFC 4648) reads back every byte string |
| `Base64.LettersAreTheAlphabet` | adapters/memory/src/metadata-encoding.ts:275 | the letters are those of table 1 of RFC 4648 |
| `Base64.GroupIsItsBits` | adapters/memory/src/metadata-encoding.ts:275 | four letters are the 24 bits of three octets |
| `PercentEncoding.RoundTrip` | adapters/memory/src/metadata-encoding.ts:309 | percent-encoding (section 2.1 of RFC 3986) reads back every well-formed text |
| `PercentEncoding.KeptIff` | adapters/memory/src/metadata-encoding.ts:309 | a text is its own encoding exactly when it consists of letters, digits and the nine unreserved marks |
| `PercentEncoding.OtherCharacterForm` | adapters/memory/src/metadata-encoding.ts:309 | any other character becomes one triplet of a percent sign and two upper-case digits for each of its octets |
| `Dictionary.RoundTrip` | adapters/memory/src/dictionary-encoding.ts:114-183 | decoding a dictionary code gives the value back, except that "font/woff2" becomes "failed" and that the codes of names inherited from Object.prototype are not decoded |
| `Dictionary.LookUp` | adapters/memory/src/dictionary-encoding.ts:130-149 | the prefix found is a prefix of the value and its code decodes to it |
| `DictionaryCodes.ValuesHaveTheirCodes` | adapters/memory/src/dictionary-encoding.ts:30-112 | each status and each content type of the tables has its own code |
| `MetadataEncoding.RoundTrip` | adapters/memory/src/metadata-encoding.ts:263-394 | decoding undoes encoding for every text but exactly "null", "undefined", "font/woff2" and the twelve names that objects inherit, such as "constructor" and "toString" |
| `MetadataEncoding.InheritedNameIsLost` | adapters/memory/src/dictionary-encoding.ts:119-128 | the name of an inherited function is stored as the text of the function, because the dictionary object seems to have it as an entry, and is read back as that text |
| `MetadataEncoding.FontBecomesFailed` | adapters/memory/src/metadata-encoding.ts:281-290 | its code is shared with the status "failed" |
| `MetadataEncoding.NullAndUndefinedRoundTrip` | adapters/memory/src/metadata-encoding.ts:263-336 | the values null and undefined survive |
| `MetadataEncoding.RawRoundTrip` | adapters/memory/src/metadata-encoding.ts:330-394 | a text without marker, stored as it is, is read as it is |
| `MetadataEncoding.Analyzer.Analyze` | adapters/memory/src/metadata-encoding.ts:49-146 | whatever at most 500 correct entries the cache holds, the answer is the uncached classification, and the cache stays so |
| `MetadataEncoding.MetadataEncode` | adapters/memory/src/metadata-encoding.ts:263-328 | the encoder with its cache gives the specified encoding |
| `MetadataForms.EncodedIsAsciiIff` | adapters/memory/src/metadata-encoding.ts:263-328 | what is stored is printable ASCII for every value, if and only if the value is not a text that is not ASCII and begins with a URL prefix of the dictionary that is longer than its code |
| `MetadataForms.RestOfUrlIsCopied` | adapters/memory/src/dictionary-encoding.ts:134-141 | for instance a text that begins with https:// and goes on with a rest that is not ASCII is not stored as ASCII |
| `MetadataForms.PrefixedForm` | adapters/memory/src/dictionary-encoding.ts:130-149 | a text that begins with such a prefix is stored as the code of the longest one followed by the rest as it is |
| `MetadataForms.DictionaryForm` | adapters/memory/src/dictionary-encoding.ts:114-128 | each status and content type of the dictionary is stored as its code |
| `MetadataForms.FormOfOtherText` | adapters/memory/src/metadata-encoding.ts:69-134 | any other unmarked text that is not ASCII is stored in base64 when more than 30 percent of its code units are wide or, if none is, more than 50 percent are Latin-1, and percent-encoded otherwise |
| `ArrayField.ArrayRoundTrip` | core/src/schema.class.ts:418-465 | parsing undoes printing for arrays of any strings, with separators, backslashes and empty items, except exactly the array of one empty string, and arrays of several items under a separator that is not one UTF-16 unit |
| `ArrayField.PlainItemsAreJoined` | core/src/schema.class.ts:418-432 | items without separators and backslashes are printed as they are, with the separator between them |
| `ArrayField.EscapedLength` | core/src/schema.class.ts:418-432 | each separator and backslash in an item gets exactly one backslash more |
| `ArrayField.ToArrayLoop` | core/src/schema.class.ts:436-465 | the index loop computes the specified items |
| `HexFields.UuidRoundTrip` | core/src/schema.class.ts:1602-1785 | a uuid becomes 24 characters and comes back in lower case |
| `HexFields.UuidIsFourNumbers` | core/src/schema.class.ts:1602-1785 | the four groups of six characters are the four 32-bit numbers of the uuid in order |
| `HexFields.MacRoundTrip` | core/src/schema.class.ts:1654-1813 | a mac address becomes the 9 base-62 digits of its number and comes back in lower case |
| `HexFields.ColorRoundTrip` | core/src/schema.class.ts:1693-1839 | a color becomes the 5 base-62 digits of its number and comes back in lower case |
| `HexFields.PackRoundTrip` | core/src/schema.class.ts:1778-1785 | the padded base-62 form has exactly the width for which the decoder tests |
| `PackedFields.CidrRoundTrip` | core/src/schema.class.ts:1664-1823 | an IPv4 network comes back exactly when its prefix is one base-62 digit |
| `PackedFields.CidrIsTwoNumbers` | core/src/schema.class.ts:1664-1673 | six base-62 digits for the address as one 32-bit number, then the prefix |
| `PackedFields.SemverRoundTrip` | core/src/schema.class.ts:1674-1831 | a version comes back exactly when minor and patch are below 1000 |
| `PackedFields.SemverIsOneNumber` | core/src/schema.class.ts:1674-1685 | the stored number is (major * 1000 + minor) * 1000 + patch |
| `PackedFields.TimeRoundTrip` | core/src/schema.class.ts:1634-1807 | a time text comes back exactly when minutes and seconds are below 60 |
| `PackedFields.TimeIsMilliseconds` | core/src/schema.class.ts:1634-1653 | the stored number is that of the milliseconds since midnight |
| `PackedFields.ShortTimeIsFilled` | core/src/schema.class.ts:1641-1647 | times without seconds or with a shorter fraction are stored like the filled-up form |
| `Duration.ParsePrint` | core/src/schema.class.ts:1707-1860 | parsing the printed duration (section 4.4.3.2 of ISO 8601:2004) gives the milliseconds, for every natural number |
| `Duration.PrintedFieldsAreBounded` | core/src/schema.class.ts:1842-1860 | the printed fields are below 24, 60, 60 and 1000 and make up the duration |
| `Duration.DurationRoundTrip` | core/src/schema.class.ts:1704-1861 | a stored duration reads back as its ISO text exactly when its base-62 form does not begin with P |
| `Duration.LostDuration` | core/src/schema.class.ts:1841 | 51 milliseconds read back as "P" |
| `BodyOverflow.InsertGetRoundTrip` | core/src/behaviors/body-overflow.ts:19-101 | reading gives back exactly the mapped fields, plus the plugin map, if and only if no field is called "$overflow", the version is not the empty string, and no kept field called "_pluginMap" hides the plugin map |
| `BodyOverflow.FieldRoundTrip` | core/src/behaviors/body-overflow.ts:19-101 | the same for each single field |
| `BodyOverflow.FieldsArePartitioned` | core/src/behaviors/body-overflow.ts:47-61 | kept and overflowed fields are the mapped fields without the version, each once |
| `BodyOverflow.KeptIsLargest` | core/src/behaviors/body-overflow.ts:28-61 | no set of fields that fits has more members than the kept one |
| `BodyOverflow.KeptSizeIsBounded` | core/src/behaviors/body-overflow.ts:49-61 | the kept sizes fit what the limit leaves beside the fixed fields |
| `BodyOverflow.PlacedSizeExceedsIff` | core/src/behaviors/body-overflow.ts:35-68 | the placed metadata, flag included, passes the limit if and only if the fixed fields alone do or, in order of size, the candidates leave a gap below the limit that is smaller than the flag before the first one that does not fit; never by more than the flag |
| `BodyOverflow.PlacedSizeIsTheMetadata` | core/src/behaviors/body-overflow.ts:33-68 | when no field has a reserved name, that size is what the entries of the placed metadata add up to |
| `BodyOverflow.NothingOverflowsIff` | core/src/behaviors/body-overflow.ts:50-64 | nothing goes to the body if and only if there is nothing to place or all candidates together fit |
| `BodyOverflow.FlagExceedsTheLimit` | core/src/behaviors/body-overflow.ts:52-68 | two fields of a byte each and a limit of one byte: 14 bytes are placed |
| `BodyOverflow.ReservedNameSizes` | core/src/behaviors/body-overflow.ts:14-16 | the overflow flag takes 13 bytes and the name of the plugin map 10 |
| `BodyOverflow.PlaceFields` | core/src/behaviors/body-overflow.ts:46-65 | the loop with its running size keeps exactly the longest prefix that fits |
| `BodyOverflow.HandleInsert` | core/src/behaviors/body-overflow.ts:19-74 | metadata and body of the whole operation |
| `Greedy.FitIsLargest` | core/src/behaviors/body-overflow.ts:29-61 | taking the smallest first is optimal in number: the exchange argument |
| `Calculator.ByteCountIsEncodedLength` | core/src/concerns/calculator.ts:4-52 | the byte count is the length of the UTF-8 encoding |
| `Migrations.RecordsAreInOrderOfApplication` | apps/cli/src/migration-manager.ts:163-281 | over every run of up, down and reset whose record table fits the page that list() reads, the records sorted by batch and name are in the order of application |
| `MigrationSteps.UpRunsTheFirstMissing` | apps/cli/src/migration-manager.ts:173-207 | while a page holds the table, an up runs in order the first of the .js files that no record names, as many as slice(0, step) leaves of them, or all without a step or with step 0, until a module throws, and records those that ran under a batch one above the largest |
| `MigrationSteps.UpAddsExactly` | apps/cli/src/migration-manager.ts:173-207 | when no module throws, table and calls grow by exactly that number, and no .js file before an applied one is left out |
| `Migrations.DownUndoesTheNewest` | apps/cli/src/migration-manager.ts:212-249 | while a page holds the table, a down undoes a suffix of that order in reverse, exactly slice(0, step) of the last batch unless a module throws |
| `Migrations.ResetUndoesAll` | apps/cli/src/migration-manager.ts:254-281 | while a page holds the table, a reset undoes everything in reverse, up to the first module that throws |
| `Migrations.DatabaseIsTheReplay` | apps/cli/src/migration-manager.ts:163-281 | if moreover every down inverts its up, the database is at every moment what the recorded migrations alone give |
| `Migrations.ResetRestoresTheDatabase` | apps/cli/src/migration-manager.ts:254-281 | and a reset returns it to its initial state with no records |
| `Migrations.LastInFirstOutIff` | apps/cli/src/migration-manager.ts:223-226 | over a set of migration names whose modules do not throw, the stack discipline holds on every run exactly when localeCompare and the file order agree on the names and there are at most 1000 of them |
| `Migrations.FewNamesFitAPage` | core/src/core/resource-query.class.ts:818-822 | with at most 1000 names the table always fits the page |
| `Migrations.OtherOrderBreaksTheStack` | apps/cli/src/migration-manager.ts:212-249 | two names on which the orders differ: one up and one down undo the wrong migration |
| `Migrations.SecondPageBreaksTheStack` | core/src/core/resource-query.class.ts:965-970 | any 1001 or more files: after one up, a down of one migration undoes another than the last |
| `Migrations.SecondUpRunsAgain` | apps/cli/src/migration-manager.ts:173-207 | and a second up runs the module of the first file behind the page again, before its record is refused |
| `Migrations.ResetLeavesTheRest` | apps/cli/src/migration-manager.ts:254-281 | a reset whose modules do not throw leaves exactly the records behind the first 1000, in order, so it empties the table exactly when there are no more |
| `MigrationManager.MigrationManager.Up` | apps/cli/src/migration-manager.ts:173-207 | the loop over the files that the listed records do not name: new records, database and calls, and what it reports |
| `MigrationManager.MigrationManager.Down` | apps/cli/src/migration-manager.ts:212-249 | the same for down |
| `MigrationManager.MigrationManager.Reset` | apps/cli/src/migration-manager.ts:254-281 | the same for reset |
| `MigrationManager.MigrationManager.GetCurrentBatch` | apps/cli/src/migration-manager.ts:147-158 | the largest batch among the records that are listed |

## Left out

- Network, disk, SDK calls, logging, events, streams and retries of requests: plumbing around the modelled code. Server answers, clocks, digests, deflate and JSON are parameters.
- Listing in the filesystem, SQLite and RedDB adapters, truncate-data, `ean` and `phone` values, other mapper branches: no further hard property, or one that the code does not have.
- The default part size of 8 MiB and part sizes that are no integers: the caller of the model passes the part size.
- Timeouts in the task runner: a timed-out attempt counts as failed, but its handler goes on in the background and is not counted as in progress, nor prevented from having effects.
- The progress callback of the upload is a point where a worker can fail, not a computation.
- The permanence of plugin keys beyond a call in which the plugin has no attributes: such a plugin loses its registry.
- Registry entries of the wrong type (non-numeric indices, non-string keys) and their error messages.
- Keys and fields whose names are integers, which JavaScript objects move to the front, and names of `Object.prototype` members as keys and fields: those objects are modelled as insertion-ordered maps. As metadata values these names are modelled.
- Lone surrogates, invalid UTF-8 and base64 texts that no encoder here writes: Node decodes these leniently, the model does not decode them; a restore is modelled for snapshots whose bodies are base64.
- `keyPrefix` joining and stripping, and `keyPrefix` in `MemoryClient.getKeysPage`.
- Persistence of the store to disk after a put or delete, which comes after the state change and is an await at which other operations may run.
- Floating-point rounding: sizes, indices, packed numbers and durations are exact integers, so results above 2^53 are not those of JavaScript.
- Bit operations on octets are written as arithmetic on lanes, which is exact for values below 256; `Number` and `parseInt` of texts that validation refuses (signs, blanks, `0x`, octets above 255) are not modelled.
- The free form of durations ("1h30m"), which validation turns into a number before it is stored.
- Separators of array fields that mean something else after a backslash in a regular expression (letters, digits) and the backslash itself; the default `|`, all other punctuation and characters beyond U+FFFF are covered.
- The pool of earlier byte counts in `calculateUTF8Bytes` and the effective limit of a resource, which is a parameter.
- The modules of migrations are partial functions on the database: a module that throws is assumed to have changed nothing, and a rolled-back migration whose file is gone counts as throwing. Reading the record table does not fail, and an insert fails only for an id that is taken.
- MigrationManager.MigrationManager.Up: does not model a failing `list()`, which `getExecutedMigrations` answers with no executed migrations (`apps/cli/src/migration-manager.ts`, lines 133-141), nor an insert that fails for another reason than a taken id, after its module has run.
- MigrationManager.MigrationManager.GetCurrentBatch: does not model a failing `list()`, which the source answers with batch 0 (lines 147-158).
- TextCompression.CompressionRoundTrip: one direction only, because a marked text that is stored uncompressed may inflate to itself; `BareMarkerIsLost` shows that the guard is needed.
- MultipartUpload.PutObjectMultipart: does not model the abort that follows a refused completion, nor the default part size.
- TaskRunner.ConcurrencyIsBounded: counts items that a worker holds; a handler that timed out and still runs is not counted.
- TaskRunner.TasksRunner.Process: a timeout is one of the ways in which an attempt fails; later effects of its handler are left out.
- TaskRunner.TasksRunner.constructor: options are whole numbers, and the timeout is not one of them.
- TaskRunner.Batch.Handle: all workers make their first call before any attempt ends; a handler that throws synchronously with no retry delay makes all its calls before the next worker starts, which changes the order of calls but none of the results stated.
- PluginRegistry.GeneratePluginMappingFromRegistry: does not return the change flag.
- Numerals.EncodeLoop: natural numbers only; the source also prints negative numbers and cuts off fractions.
- Numerals.DecodeLoop: a leading minus sign, which the source reads as a negative number, gives not-a-number.
- Listing.List: returns keys, common prefixes and the token; sizes, tags and counts of the response are lookups.
- MemoryStorage.MemoryStorage.List: as Listing.List.
- MemoryStorage.MemoryStorage.DeleteMultiple: does not return the report of the deleted keys; no delete fails.
- MemoryStorage.MemoryStorage.TakeSnapshot: without the timestamp, the bucket and the object count.
- MemoryStorage.MemoryStorage.RestoreSnapshot: for snapshots whose bodies are base64 as this code writes it.
- StoreConcurrency.NoUpdateIsLost: for runs without a restore, which is a write that is no update.
- StoreRecency.ReadKeyOutlivesUntouchedKeys: for runs without a restore, which sets the recency order anew.
