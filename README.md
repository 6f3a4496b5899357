# fakeriak in-memory backends, modelled in Dafny

fakeriak replaces the network backend of the Ruby Riak client with an
in-memory one. A `MemoryBackend` keeps a dataset: buckets (each with its
properties and its objects by key), search indexes and search schemas. Every
handle created for the same client shares that dataset through a class-level
table from node host to dataset. On this store sit:

- object fetch, reload, store and delete;
- counters held as plain integers;
- bucket properties that start from fixed defaults;
- key and bucket listing in first-insertion order;
- secondary-index queries, by literal or inclusive range, that can also report the keys found under each matched term;
- the search index and schema registries.

CRDTs (counters, sets, flags, registers and maps) are stored as serialised
values. A `CrdtLoader` reads the stored value, or the default for the bucket
type's datatype when the key is absent. A `CrdtOperator` merges a batch of
operations into that value, recursing into the children of a map, and
stores the result. The older `MemoryProtobuffsBackend` keeps a bare table of
objects per bucket.

Layout:

- `common.dfy`: `Option`, `Result` and the errors the backends raise.
- `ordered_table.dfy`: an insertion-ordered table, standing for a Ruby `Hash`.
- `terms.dfy`: index terms and `Integer#to_s`, with the string order that ranges use.
- `records.dfy`: the `RObject` record.
- `crdt_types.dfy`: CRDT values and operations.
- `host_registry.dfy`: the host-to-dataset table and its registration loop.
- `client_id.dfy`: the client-id packing.
- `bucket_store.dfy`: the bucket table as a value, with what each operation does to it.
- `secondary_index.dfy`: the index scan.
- `memory_backend.dfy`: the `MemoryBackend` class, which updates its shared dataset in place.
- `crdt_loader.dfy` and `crdt_operator.dfy`: the CRDT loader and operator.
- `memory_protobuffs_backend.dfy`: the older backend.

A Ruby exception becomes an `Err` result. `ProtobuffsFailedRequest(:not_found)`
is `NotFound`. The `notfound` error response is `ErrorResponse(0, "notfound")`.
An unsupported CRDT type is `UnsupportedDatatype`. Any other exception, such
as a method missing on `nil` or on a value of the wrong class, is a `Fault`.

`update_search_index` returns its `updates` argument, which is the value of
the assignment it ends with. The repository's own test
(`spec/riak/client/memory_backend_spec.rb`, lines 349-354) expects `true`.
The model follows the code.

## Model

| member | source | states |
|---|---|---|
| HostRegistry.Registry.constructor | lib/riak/client/memory_backend.rb:25 | the host table starts empty |
| HostRegistry.Assign | lib/riak/client/memory_backend.rb:47-53 | every host registered before keeps a dataset, and every node host maps to the new dataset |
| HostRegistry.AssignMeaning | lib/riak/client/memory_backend.rb:47-53 | after registration every node host maps to the new dataset, every other host keeps its dataset, and no other host appears |
| HostRegistry.Registry.Register | lib/riak/client/memory_backend.rb:49-51 | the loop over the client's nodes leaves the table equal to `Assign` of the old table |
| Memory.Dataset.constructor | lib/riak/client/memory_backend.rb:48 | a fresh dataset has no buckets, no search indexes and no schemas, and satisfies the bucket invariant |
| Memory.MemoryBackend.constructor | lib/riak/client/memory_backend.rb:44-56 | a handle for a registered host shares that host's dataset and leaves the table unchanged; otherwise a fresh empty dataset is registered under every node host; the client id is then `set_client_id(0)` |
| ClientIds.PackN | lib/riak/client/memory_backend.rb:67 | `pack("N")` gives four characters, each below 256 |
| ClientIds.PackRoundTrip | lib/riak/client/memory_backend.rb:67 | unpacking the four big-endian bytes gives the id modulo 2^32 |
| ClientIds.PackEqual | lib/riak/client/memory_backend.rb:67 | two Integer ids pack alike exactly when they agree modulo 2^32 |
| ClientIds.ClientIdOf | lib/riak/client/memory_backend.rb:66-68 | an Integer id is stored as its 4-byte packing, which unpacks to the id modulo 2^32; any other id is stored as its string |
| ClientIds.DefaultClientId | lib/riak/client/memory_backend.rb:55 | a new handle's client id is four NUL bytes |
| Memory.MemoryBackend.SetClientId | lib/riak/client/memory_backend.rb:66-68 | the stored client id is the packed or stringified argument |
| OrderedTable.PutValid | lib/riak/client/memory_backend.rb:259 | `Hash#[]=` keeps the table well formed; a new key is listed last and an existing key keeps its place |
| OrderedTable.GetPut | lib/riak/client/memory_backend.rb:259 | after `h[k] = v`, `k` reads `v` and every other key reads what it did |
| OrderedTable.DeleteValid | lib/riak/client/memory_backend.rb:263 | `Hash#delete` keeps the table well formed and lists exactly the other keys; deleting an absent key changes nothing |
| OrderedTable.GetDelete | lib/riak/client/memory_backend.rb:263 | after `h.delete(k)`, `k` reads nothing and every other key reads what it did |
| BucketStore.NewBucket | lib/riak/client/memory_backend.rb:425 | a new bucket has exactly the default properties and no keys |
| BucketStore.Touch | lib/riak/client/memory_backend.rb:423-426 | `data(bucket)` adds only `bucket` to the table; an existing bucket leaves the table as it was, and a missing one is created with default properties and no keys |
| BucketStore.TouchSpec | lib/riak/client/memory_backend.rb:423-426 | `data(bucket)` keeps the invariant, leaves existing buckets as they were, and appends a missing bucket with default properties and no keys |
| BucketStore.LookupTouch | lib/riak/client/memory_backend.rb:423-426 | touching a bucket changes no object |
| Memory.MemoryBackend.Data | lib/riak/client/memory_backend.rb:423-426 | the dataset afterwards is the touched table, and the bucket returned is the one stored there |
| Memory.MemoryBackend.FetchObject | lib/riak/client/memory_backend.rb:247-251 | returns the stored object exactly when the key holds one, with its own bucket and key; otherwise `not_found`; only the bucket is touched |
| Memory.MemoryBackend.ReloadObject | lib/riak/client/memory_backend.rb:253-256 | returns the given object with the stored body copied onto it, or `not_found` when nothing is stored |
| BucketStore.StoreValid | lib/riak/client/memory_backend.rb:258-260 | storing keeps the invariant; the key is listed last when new, and the key list is unchanged when the key already exists |
| BucketStore.LookupStore | lib/riak/client/memory_backend.rb:258-260 | the stored object is what its key fetches, and every other key fetches what it did |
| BucketStore.Store | lib/riak/client/memory_backend.rb:258-260 | only the object's bucket may be added to the table, and the object is what its bucket and key fetch afterwards |
| Memory.MemoryBackend.StoreObject | lib/riak/client/memory_backend.rb:258-260 | the dataset becomes `Store` of the old one, and the object is returned |
| BucketStore.RemoveValid | lib/riak/client/memory_backend.rb:262-265 | deleting keeps the invariant, and the bucket lists exactly its other keys |
| BucketStore.LookupRemove | lib/riak/client/memory_backend.rb:262-265 | the deleted key fetches nothing, and every other key fetches what it did |
| BucketStore.Remove | lib/riak/client/memory_backend.rb:262-265 | only the bucket may be added to the table, and the key fetches nothing afterwards |
| Memory.MemoryBackend.DeleteObject | lib/riak/client/memory_backend.rb:262-265 | the dataset becomes `Remove` of the old one, and the result is `true` whether or not the key existed |
| BucketStore.CounterOf | lib/riak/client/memory_backend.rb:271-274 | an absent counter reads 0, and a stored one reads its body |
| Memory.MemoryBackend.GetCounter | lib/riak/client/memory_backend.rb:271-274 | returns the stored body, or 0 for an absent key |
| BucketStore.Increment | lib/riak/client/memory_backend.rb:281 | `value + amount` succeeds exactly on an Integer body and adds `amount` to it |
| BucketStore.AfterPost | lib/riak/client/memory_backend.rb:276-285 | a post succeeds exactly when the counter holds an Integer, and the key then holds a counter object whose body is that Integer plus `amount`; a failure is a fault |
| BucketStore.CounterPost | lib/riak/client/memory_backend.rb:271-285 | an absent counter reads 0; a post on an Integer body succeeds, and the counter then reads the old value plus `amount`; a post on any other body fails |
| BucketStore.CounterPostsAdd | lib/riak/client/memory_backend.rb:276-285 | two successive posts of `x` and `y` leave the counter at its old value plus `x + y` |
| Memory.MemoryBackend.PostCounter | lib/riak/client/memory_backend.rb:276-285 | succeeds exactly when `AfterPost` does, and leaves the dataset equal to its result; on failure only the bucket is touched |
| Memory.MemoryBackend.GetBucketProps | lib/riak/client/memory_backend.rb:287-289 | returns the bucket's properties, which are the defaults for a bucket never seen before |
| BucketStore.Overlay | lib/riak/client/memory_backend.rb:293 | `merge!` gives every given property its new value, keeps every other property, and loses none |
| BucketStore.OverlayIdempotent | lib/riak/client/memory_backend.rb:291-295 | setting the same properties twice is setting them once |
| BucketStore.WithPropsSpec | lib/riak/client/memory_backend.rb:291-303 | replacing a bucket's properties keeps the invariant and leaves every object and the bucket's key list unchanged |
| BucketStore.WithProps | lib/riak/client/memory_backend.rb:291-303 | only the bucket may be added to the table; it then carries the given properties and keeps its keys |
| Memory.MemoryBackend.SetBucketProps | lib/riak/client/memory_backend.rb:291-295 | returns the old properties overlaid with the given ones, and stores them on the bucket |
| BucketStore.ResetForgets | lib/riak/client/memory_backend.rb:297-303 | after a reset the properties are the defaults, whatever was set before |
| Memory.MemoryBackend.ClearBucketProps | lib/riak/client/memory_backend.rb:301-303 | the bucket's properties become a copy of the defaults, and its keys stay |
| Memory.MemoryBackend.ResetBucketProps | lib/riak/client/memory_backend.rb:297-299 | same effect and result as `clear_bucket_props` |
| Memory.MemoryBackend.ListKeys | lib/riak/client/memory_backend.rb:305-314 | returns the bucket's keys in insertion order, each once, and exactly the keys that hold an object |
| Memory.MemoryBackend.ListKeysYielding | lib/riak/client/memory_backend.rb:305-314 | with a block, yields the key list once unless it is empty, then returns `true` |
| Memory.MemoryBackend.ListBuckets | lib/riak/client/memory_backend.rb:316-325 | returns every bucket ever touched, each once, in the order first touched; it touches nothing |
| Memory.MemoryBackend.ListBucketsYielding | lib/riak/client/memory_backend.rb:316-325 | with a block, yields the bucket list once unless it is empty, then returns `true` |
| Terms.DecimalRoundTrip | lib/riak/client/memory_backend.rb:339 | `Integer#to_s` parses back to the same integer |
| Terms.Decimal | lib/riak/client/memory_backend.rb:339 | `Integer#to_s` of a non-negative integer is a non-empty string of digits, and of a negative one a `-` followed by digits |
| Terms.DecimalInjective | lib/riak/client/memory_backend.rb:342 | distinct integers have distinct `to_s` |
| Terms.LexLeReflexive | lib/riak/client/memory_backend.rb:340 | the string order used by string ranges is reflexive |
| Terms.LexLeAntisymmetric | lib/riak/client/memory_backend.rb:340 | the string order is antisymmetric |
| Terms.LexLeTransitive | lib/riak/client/memory_backend.rb:340 | the string order is transitive |
| Terms.LexLeTotal | lib/riak/client/memory_backend.rb:340 | any two strings are ordered one way or the other |
| SecondaryIndex.IntPointRange | lib/riak/client/memory_backend.rb:338-344 | the integer range `n..n` matches exactly what the literal `n` matches |
| SecondaryIndex.StrPointRange | lib/riak/client/memory_backend.rb:338-344 | the string range `s..s` matches exactly what the literal `s` matches |
| SecondaryIndex.StringQueryOnInteger | lib/riak/client/memory_backend.rb:342-343 | a string literal matches an integer value exactly when the string is that integer's `to_s` |
| SecondaryIndex.StringQueryOneInteger | lib/riak/client/memory_backend.rb:342-343 | a string literal matches at most one integer value |
| SecondaryIndex.StrRangeOrdered | lib/riak/client/memory_backend.rb:338-340 | a string range that matches any value has its first end at or below its last |
| SecondaryIndex.StrRangeConvex | lib/riak/client/memory_backend.rb:338-340 | a string range matches every string lying between two strings it matches |
| SecondaryIndex.StrRangeSplit | lib/riak/client/memory_backend.rb:338-340 | every value a string range matches is matched by one of its two halves, split at any string |
| SecondaryIndex.Coerce | lib/riak/client/memory_backend.rb:338-343 | a string value is compared as is, an integer query compares the value as is, and the compared value is a string exactly when the value is one or the query is a string or a string range |
| SecondaryIndex.Hit | lib/riak/client/memory_backend.rb:337-344 | a literal matches its own value; an integer range never matches a string value and matches an integer value exactly when it lies between the ends |
| SecondaryIndex.AnyHitMeaning | lib/riak/client/memory_backend.rb:336-346 | a key matches exactly when some value under the index matches |
| SecondaryIndex.SelectMembers | lib/riak/client/memory_backend.rb:334-347 | a key is selected exactly when it is listed and has a matching value |
| SecondaryIndex.SelectDistinct | lib/riak/client/memory_backend.rb:347 | no key is selected twice |
| SecondaryIndex.Select | lib/riak/client/memory_backend.rb:334-347 | the result lists only keys of the bucket, and no more of them than the bucket has |
| SecondaryIndex.HitsOnlyOnHit | lib/riak/client/memory_backend.rb:346-352 | a key is recorded under a term only if it matched |
| SecondaryIndex.Hits | lib/riak/client/memory_backend.rb:348-352 | one key's contribution to a term holds only that key, at most once per value |
| SecondaryIndex.TermKeysSelected | lib/riak/client/memory_backend.rb:346-352 | every key recorded under a term is among the returned keys |
| SecondaryIndex.TermKeys | lib/riak/client/memory_backend.rb:346-352 | a term lists only keys of the bucket |
| SecondaryIndex.NoteAllRecorded | lib/riak/client/memory_backend.rb:348-352 | scanning a key's values appends the key once per matching value to the list of the value's coerced term, and creates no empty list |
| SecondaryIndex.ScanKey | lib/riak/client/memory_backend.rb:336-353 | the inner loop appends the key exactly when some value matches; `with_terms` exists exactly when terms are asked for and some key matched; each term's list grows by that key's hits |
| SecondaryIndex.ScanIndex | lib/riak/client/memory_backend.rb:331-358 | the keys with a matching value, in listing order, each once; with `return_terms`, each term maps to the keys found under it, in scan order, and `with_terms` stays nil when nothing matched |
| Memory.MemoryBackend.GetIndex | lib/riak/client/memory_backend.rb:331-358 | the result is `ScanIndex` of the bucket as it was; only the bucket is touched |
| BucketStore.NewSearchIndex | lib/riak/client/memory_backend.rb:365 | the recorded index carries its name, the given schema or `_yz_default`, and the given n_val or 3 |
| Memory.MemoryBackend.CreateSearchIndex | lib/riak/client/memory_backend.rb:364-367 | records the index under its name, replacing any earlier one, and returns `true` |
| BucketStore.Find | lib/riak/client/memory_backend.rb:369-376 | the registered entry, or the `notfound` error response exactly when the name is absent |
| Memory.MemoryBackend.GetSearchIndex | lib/riak/client/memory_backend.rb:369-376 | returns the recorded index, or `notfound` |
| Memory.MemoryBackend.UpdateSearchIndex | lib/riak/client/memory_backend.rb:378-380 | replaces only the schema of an existing index and returns `updates`; on a missing index it raises and changes nothing |
| Memory.MemoryBackend.DeleteSearchIndex | lib/riak/client/memory_backend.rb:382-385 | removes the index if present, and returns `true` |
| BucketStore.SearchIndexLifecycle | lib/riak/client/memory_backend.rb:364-385 | a created index reads back with its defaults; a deleted index reads `notfound`; other indexes are unaffected |
| Memory.MemoryBackend.CreateSearchSchema | lib/riak/client/memory_backend.rb:387-390 | records the schema under its name and returns `true` |
| Memory.MemoryBackend.GetSearchSchema | lib/riak/client/memory_backend.rb:392-397 | returns the recorded schema, or `notfound` |
| CrdtLoading.EmptyMap | lib/riak/client/memory_backend/crdt_loader.rb:16 | the default map has all five facets empty |
| CrdtLoading.Default | lib/riak/client/memory_backend/crdt_loader.rb:13-17 | exactly `set`, `counter` and `map` have a default, which is the empty set, 0 or the map with five empty facets |
| CrdtLoading.DefaultForCases | lib/riak/client/memory_backend/crdt_loader.rb:13-17 | sets start as the empty set, counters at 0 and maps with five empty facets; flags and registers have no default |
| CrdtLoading.DefaultFor | lib/riak/client/memory_backend/crdt_loader.rb:13-17 | exactly sets, counters and maps have a default |
| CrdtLoading.CrdtLoader.constructor | lib/riak/client/memory_backend/crdt_loader.rb:19-24 | the loader keeps its backend and its generated context |
| CrdtLoading.Unmarshal | lib/riak/client/memory_backend/crdt_loader.rb:30 | `Marshal.load` succeeds exactly on a serialised value and gives that value back; anything else is a fault |
| CrdtLoading.LoadFrom | lib/riak/client/memory_backend/crdt_loader.rb:27-43 | a stored key loads exactly when its body is a serialised value, and gives that value; an absent key loads exactly when the bucket type names set, counter or map, and gives that default; every other outcome is a fault or `UnsupportedDatatype` of the named type |
| CrdtLoading.LoadStored | lib/riak/client/memory_backend/crdt_loader.rb:29-30 | a stored key loads its serialised value, whatever the bucket type says; any other body fails to load |
| CrdtLoading.LoadAbsentDefaults | lib/riak/client/memory_backend/crdt_loader.rb:31-38 | an absent key loads as 0, the empty set or the empty map, following the bucket type's `datatype` |
| CrdtLoading.LoadAbsentFails | lib/riak/client/memory_backend/crdt_loader.rb:35-41 | an absent key with no `datatype` property faults; with a datatype that has no default it raises "Unsupported CRDT data type"; loading succeeds exactly for set, counter and map |
| CrdtLoading.CrdtLoader.Load | lib/riak/client/memory_backend/crdt_loader.rb:27-43 | the result is `LoadFrom` of what the key held, and only the bucket is touched |
| CrdtTypes.WithFacet | lib/riak/client/memory_backend/crdt_operator.rb:70-72 | replacing one facet of a map value leaves the other four as they were |
| CrdtOperating.Start | lib/riak/client/memory_backend/crdt_operator.rb:52 | Ruby's or-assignment replaces a missing value and a stored `false` by the datatype's default when it has one; any other value is kept, and a flag or register has no default to replace with |
| CrdtOperating.MergeFromDefault | lib/riak/client/memory_backend/crdt_operator.rb:52 | merging into nothing is merging into the datatype's default |
| CrdtOperating.MergeFromFalse | lib/riak/client/memory_backend/crdt_operator.rb:52 | for a datatype with a default, merging into a stored `false` is merging into nothing |
| CrdtOperating.CounterOverFalse | lib/riak/client/memory_backend/crdt_operator.rb:52-59 | a counter operation on a stored `false` counts from 0 |
| CrdtOperating.Assign | lib/riak/client/memory_backend/crdt_operator.rb:60-61 | assignment succeeds exactly on a scalar operation value and keeps its kind; anything else is a fault |
| CrdtOperating.Merge | lib/riak/client/memory_backend/crdt_operator.rb:51-77 | every failure is a fault; a successful set merge yields a Set, a map merge a map, and a counter merge an Integer exactly for an Integer delta and a String exactly for a String; a flag or register merge succeeds exactly on a scalar |
| CrdtOperating.MergeSet | lib/riak/client/memory_backend/crdt_operator.rb:55-57 | an element is present afterwards exactly when it was present or added, and was not removed |
| CrdtOperating.MergeCounter | lib/riak/client/memory_backend/crdt_operator.rb:58-59 | a counter grows by the delta, from 0 when absent |
| CrdtOperating.MergeAssign | lib/riak/client/memory_backend/crdt_operator.rb:60-61 | a flag or register takes the operation's value, whatever it held before |
| CrdtOperating.MergeMapUpdate | lib/riak/client/memory_backend/crdt_operator.rb:62-70 | a map update merges recursively into the named child of its facet, and succeeds exactly when that merge does; other children and facets are unchanged |
| CrdtOperating.MergeMapDelete | lib/riak/client/memory_backend/crdt_operator.rb:71-73 | a map delete removes only the named child; deleting an absent child changes nothing, so a second delete has no effect |
| CrdtOperating.NestedCounterExample | lib/riak/client/memory_backend/crdt_operator.rb:62-70 | one update builds a counter inside a map inside a map, starting from nothing |
| CrdtOperating.MergeWellTyped | lib/riak/client/memory_backend/crdt_operator.rb:51-77 | merging a well-typed operation into a well-typed or missing value succeeds and yields a well-typed value, recursively through maps |
| CrdtOperating.MergeMapWellTyped | lib/riak/client/memory_backend/crdt_operator.rb:62-73 | a well-typed map update or delete on a well-typed or missing map succeeds and yields a well-typed map |
| CrdtOperating.FoldErrSticky | lib/riak/client/memory_backend/crdt_operator.rb:35-37 | once one operation of a batch fails, the batch fails with that error |
| CrdtOperating.Fold | lib/riak/client/memory_backend/crdt_operator.rb:35-37 | an empty batch leaves the value as it was; a failure is a fault; a successful non-empty set batch yields a Set and a map batch a map |
| CrdtOperating.FoldAppend | lib/riak/client/memory_backend/crdt_operator.rb:35-37 | applying two batches in turn is applying their concatenation |
| CrdtOperating.SumPermutation | lib/riak/client/memory_backend/crdt_operator.rb:58-59 | the total of a batch of counter deltas does not depend on their order |
| CrdtOperating.FoldCounter | lib/riak/client/memory_backend/crdt_operator.rb:35-37 | a batch of counter deltas adds its total to the starting count |
| CrdtOperating.FoldCounterOrder | lib/riak/client/memory_backend/crdt_operator.rb:35-37 | reordering the counter operations of a batch does not change the result |
| CrdtOperating.CrdtObject | lib/riak/client/memory_backend/crdt_operator.rb:40-42 | the stored object holds the serialised value, under content type `application/riak_<datatype>` |
| Records.NewObject | lib/riak/client/memory_backend/crdt_operator.rb:40-42 | a new object has the given bucket, key, content type and body, and no index entries |
| CrdtOperating.LoadAfterOperate | lib/riak/client/memory_backend/crdt_operator.rb:39-43 | loading the key after `operate` stored under it gives back the merged value |
| CrdtOperating.FlagFalseThenCounter | lib/riak/client/memory_backend/crdt_operator.rb:26-59 | after a flag batch stored `false` under a key, a counter batch on that key counts from 0 |
| CrdtOperating.OperateTwice | lib/riak/client/memory_backend/crdt_operator.rb:26-47 | a second batch on the same key continues from the first batch's value: the same as one batch of both |
| CrdtOperating.CrdtOperator.constructor | lib/riak/client/memory_backend/crdt_operator.rb:21-23 | the operator keeps its backend |
| CrdtOperating.Operated | lib/riak/client/memory_backend/crdt_operator.rb:26-37 | a load failure is the result; an empty batch fails; a success means the load succeeded and the batch was not empty, and a set or map batch yields a Set or a map |
| CrdtOperating.CrdtOperator.Operate | lib/riak/client/memory_backend/crdt_operator.rb:26-47 | succeeds exactly when `Operated` does; then it returns key, merged value and context, and stores the merged value under the key; on failure only the bucket is touched |
| MemoryProtobuffs.PbDataset.constructor | lib/riak/client/memory_protobuffs_backend.rb:23 | a fresh dataset has no buckets |
| MemoryProtobuffs.MemoryProtobuffsBackend.constructor | lib/riak/client/memory_protobuffs_backend.rb:19-29 | shares the registered dataset of the host, or registers a fresh empty one under every node host |
| MemoryProtobuffs.TouchSpec | lib/riak/client/memory_protobuffs_backend.rb:133-135 | `data(bucket)` keeps the invariant, appends a missing bucket empty, and changes no object |
| MemoryProtobuffs.Touch | lib/riak/client/memory_protobuffs_backend.rb:133-135 | `data(bucket)` adds only `bucket`; an existing bucket leaves the table as it was, and a missing one is created empty |
| MemoryProtobuffs.MemoryProtobuffsBackend.Data | lib/riak/client/memory_protobuffs_backend.rb:133-135 | the dataset afterwards is the touched table, and the bucket's table is returned |
| MemoryProtobuffs.MemoryProtobuffsBackend.FetchObject | lib/riak/client/memory_protobuffs_backend.rb:47-51 | returns the stored object exactly when the key holds one, otherwise `not_found` |
| MemoryProtobuffs.MemoryProtobuffsBackend.ReloadObject | lib/riak/client/memory_protobuffs_backend.rb:53-55 | returns the stored object itself, not the argument, or `not_found` |
| MemoryProtobuffs.StoreValid | lib/riak/client/memory_protobuffs_backend.rb:57-59 | storing keeps the invariant, and a new key is listed last |
| MemoryProtobuffs.LookupStore | lib/riak/client/memory_protobuffs_backend.rb:57-59 | the stored object is what its key fetches, and every other key fetches what it did |
| MemoryProtobuffs.Store | lib/riak/client/memory_protobuffs_backend.rb:57-59 | only the object's bucket may be added, and the object is what its bucket and key fetch afterwards |
| MemoryProtobuffs.MemoryProtobuffsBackend.StoreObject | lib/riak/client/memory_protobuffs_backend.rb:57-59 | the dataset becomes `Store` of the old one, and the object is returned |
| MemoryProtobuffs.RemoveSpec | lib/riak/client/memory_protobuffs_backend.rb:61-63 | deleting keeps the invariant; only that key stops fetching anything, and only it leaves the listing |
| MemoryProtobuffs.Remove | lib/riak/client/memory_protobuffs_backend.rb:61-63 | only the bucket may be added, and the key fetches nothing afterwards |
| MemoryProtobuffs.MemoryProtobuffsBackend.DeleteObject | lib/riak/client/memory_protobuffs_backend.rb:61-63 | the dataset becomes `Remove` of the old one, and the result is the object that was removed, or nil |
| MemoryProtobuffs.MemoryProtobuffsBackend.ListKeys | lib/riak/client/memory_protobuffs_backend.rb:85-87 | the bucket's keys in insertion order, each once, exactly those that hold an object |
| MemoryProtobuffs.MemoryProtobuffsBackend.ListBuckets | lib/riak/client/memory_protobuffs_backend.rb:89-91 | every bucket touched, each once, in the order first touched |

## Left out

- `ping`, `server_info`, `stats`, `get_client_id` and `teardown` (both backends), and the protobuffs backend's `set_client_id` and `socket`: constant answers or plain accessors, with nothing to prove.
- `link_walk`, `mapred`, `search` and the Luwak file operations, plus every `NotImplementedError` stub of the protobuffs backend: they only raise.
- The `options` arguments (bucket type, pagination, quorums): the code ignores them. Buckets are named by string, so `Bucket#name` is applied before a call.
- `get_bucket_type_props` is not part of this model. The bucket type's properties are the `typeProps` parameter of the loader and the operator.
- `Marshal.dump`/`Marshal.load` are modelled as the identity on CRDT values (`Payload.Marshaled`). A plain string or integer body fails to load with a `Fault`.
- `SecureRandom.uuid` contexts are parameters. The client and node objects are reduced to the host strings the constructors read.
- `RObject` is a value, so aliasing is not modelled. `reload_object` returns an updated copy rather than mutating its argument. A caller that changes a stored `RObject` afterwards would change the stored one in Ruby.
- `RObject` links, metadata, vclock and etag are not part of this model: no core operation reads them.
- Memory.MemoryBackend.GetIndex: a string range matches by lexicographic comparison of the bounds. Ruby's `Range#include?` on multi-character strings may instead enumerate the range with `String#succ`, which differs for some bounds. Index values are integers or strings only.
- CrdtOperating.Merge: a flag or register operation whose value is not a scalar is a `Fault` here, whereas Ruby would store any object. A counter operation on a loaded `Set` faults, and only integer or string addition is modelled.
- Datatypes other than the five CRDT types are not modelled: an operation's `type` is one of them.
- `MemoryProtobuffsBackend = MemoryBackend` (memory_backend.rb:429-430) rebinds the constant once both files are loaded. Both classes are modelled as written.
- `CrdtLoader#get_loader_for_value` returns its argument, so there is nothing to state about it.
- An object's index values form a Ruby `Set`; here they are a sequence. A value listed twice would be counted twice under its term, which a `Set` rules out.
- `with_terms` is an insertion-ordered Ruby `Hash`; here it is a map, so the order of its terms is not modelled. The keys under each term are in scan order.
- A query is a literal or an inclusive range. An exclusive range (`a...b`) cannot be expressed as a `Query`.
- `get_bucket_props` and `set_bucket_props` return the stored props `Hash` itself. A caller that mutates it changes the bucket's properties in Ruby; here the result is a copy.
- The order of the client's node list matters only for which entries registration overwrites, and that is covered by `Assign`.
