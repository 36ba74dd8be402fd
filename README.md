# Redis object mapper and lock naming, in Dafny

This project models the two Redis operation classes of the `rule-engine`
service.

**The object-to-hash mapper** (`ReactiveClassOperationsImpl`) stores typed
records in one Redis hash per collection:

- Every declared field of every object becomes the hash field
  `compositeKey:fieldName`.
- The reserved field `@class` names the class.
- The composite key is the object's `@RedisPrimaryKey` values, rendered and
  joined with `:` in ascending order of field name.

A read goes back the other way:

1. It resolves the class (a type hint, or the stored `@class`).
2. It lists the hash fields to ask for, limited to the requested columns.
3. It splits the flat `HMGET` answer back into one field map per composite key.
4. It rebuilds one object per group.

**The lock operations** (`ReactiveLockOperationsImpl`) cover:

- channel names with a Redis Cluster hash tag;
- owner tokens and entry names built from the instance's UUID;
- the 30-second default lease;
- the one mutable field, `internalLockLeaseTime`, which is set before the lock
  script is handed its `KEYS` and `ARGV` lists.

Reflection is replaced by an explicit schema per class: its name, its declared
fields in order (each with its primary-key flag) and its `@RedisKey` value.
`Class.forName` is replaced by a registry from class names to schemas. The
Redis store is a map from collection keys to hashes, handed in as a parameter.
The network calls themselves are not modelled; the requests handed to them are.

The modules follow the source:

- `Outcomes`: Option, Result and the exceptions.
- `JavaText`: `split`, `lastIndexOf`, `Long.toString` and ASCII case mapping.
- `StringOrder`: `String.compareTo` and sorting.
- `Records`: schemas, objects and the primary-key carriers.
- `CompositeKeys`: `getHashKeyPre`.
- `HashMapper`: `putClass` and `getKey`.
- `ClassFields`: `getClassField`.
- `HashKeys`: `findHashKey` and the key-collecting callback.
- `Demultiplex`: `toMap`.
- `ClassReader`: `getClassByName`, `doFinally` and `getClassDetail`.
- `PropertyNames`: `methodToProperty`.
- `RoundTrip`: write-then-read properties.
- `TimeUnits`: `TimeUnit.toMillis`.
- `ReactiveLocks`: the lock class.

The imperative parts are methods with loop invariants, each proved equal to a
function: the loops of `getHashKeyPre`, `putClass`, `getClassField`,
`findHashKey`, `toMap` and `doFinally`. The lock is a class whose
`internalLockLeaseTime` field is updated in place.

Behaviour of the code that its names and comments do not suggest:

- `putClass` swallows every exception raised while gathering. It still writes
  the entries gathered before the failing object (`HashMapper.PutClassStopsAtRejected`).
- Without a type hint, `findHashKey` joins the text of the whole carrier
  collection (`[100]`) with the field name. A scalar read therefore asks for
  `[100]:userId`, not for the `100:userId` that `putClass` wrote
  (`HashKeys.ScalarBranchUsesCollectionText`). In the shown `getClass`
  overloads this branch is reached only by the `ClassCastException` fallback,
  and an unchecked generic cast never raises that exception.
- The dedup check in `findHashKey` asks whether the whole collection is a key
  of `preKey`, but only single carriers are ever put there. So the check never
  skips anything (`HashKeys.CollectKeys`).
- A key and the same key wrapped in braces share a wake channel
  (`ReactiveLocks.ChannelNameCollide`). Channel names are therefore not
  collision-free over all keys.
- Fields absent from a read come back `null`, not as a type default.
- Without a type hint, a stored `@class` holding null does not give an empty
  result: `readString` returns null inside a reactive `map`, which fails with a
  `NullPointerException` (`ClassReader.ReadStoredNullClass`).
- A null element of `putClass`'s collection throws like any rejected object
  and ends the gathering. A null first element leaves no class, so only an
  explicit key lets an empty `HMSET` request be issued (`HashMapper.PutClassNullFirst`).
- `putClass` writes with `HMSET`, which adds to the collection's hash and
  never removes a field. Several writes to one collection therefore
  accumulate (`RoundTrip.HMSetKeeps`).
- `toMap` takes the group key from before the last colon. It takes the field
  name from the last non-empty piece of `split(":")`. The two differ only for
  keys that end in a colon (`Demultiplex.SplitFieldKeyTrailingColon`).

## Model

| member | source | states |
|---|---|---|
| JavaText.LastIndexOf | rule-engine/src/main/java/com/uetty/rule/config/redis/operations/impl/ReactiveClassOperationsImpl.java:270 | `lastIndexOf(":")` is -1 exactly when there is no colon, and otherwise points at a colon with none after it |
| JavaText.Segments | rule-engine/src/main/java/com/uetty/rule/config/redis/operations/impl/ReactiveClassOperationsImpl.java:268 | splitting on a character always yields at least one piece and no piece contains the separator |
| JavaText.DropTrailingEmpty | rule-engine/src/main/java/com/uetty/rule/config/redis/operations/impl/ReactiveClassOperationsImpl.java:268 | `split` drops only trailing empty pieces: the result is a prefix of the pieces, ends in a non-empty piece, and everything dropped is empty |
| JavaText.JavaSplit | rule-engine/src/main/java/com/uetty/rule/config/redis/operations/impl/ReactiveClassOperationsImpl.java:268 | `String.split` with a one-character separator: the whole text when the separator does not occur, otherwise the pieces between separators without trailing empty ones; `Demultiplex.SplitFieldKeyFails` states when it is empty |
| JavaText.NatDigitsRoundTrip | rule-engine/src/main/java/com/uetty/rule/config/redis/operations/impl/ReactiveLockOperationsImpl.java:193-195 | reading back the decimal digits of a thread id gives the number |
| JavaText.DecimalInjective | rule-engine/src/main/java/com/uetty/rule/config/redis/operations/impl/ReactiveLockOperationsImpl.java:193-195 | distinct `long` values have distinct decimal texts, so the thread id can be recovered from the owner token |
| JavaText.ToLower | rule-engine/src/main/java/com/uetty/rule/config/redis/operations/impl/ReactiveClassOperationsImpl.java:352 | lower-casing maps exactly the upper-case ASCII letters to their lower-case counterparts and leaves every other character alone |
| StringOrder.BelowIrreflexive | rule-engine/src/main/java/com/uetty/rule/config/redis/operations/impl/ReactiveClassOperationsImpl.java:319 | `compareTo` never puts a field name before itself |
| StringOrder.BelowAsymmetric | rule-engine/src/main/java/com/uetty/rule/config/redis/operations/impl/ReactiveClassOperationsImpl.java:319 | two field names are never each before the other |
| StringOrder.BelowTransitive | rule-engine/src/main/java/com/uetty/rule/config/redis/operations/impl/ReactiveClassOperationsImpl.java:319 | the field-name order is transitive |
| StringOrder.BelowTotal | rule-engine/src/main/java/com/uetty/rule/config/redis/operations/impl/ReactiveClassOperationsImpl.java:319 | any two distinct field names are ordered, so sorting by name is deterministic |
| StringOrder.SortSet | rule-engine/src/main/java/com/uetty/rule/config/redis/operations/impl/ReactiveClassOperationsImpl.java:317-319 | the sorted primary-key names are ascending, drawn from the key map, and as many as its keys |
| StringOrder.SortSetComplete | rule-engine/src/main/java/com/uetty/rule/config/redis/operations/impl/ReactiveClassOperationsImpl.java:317-319 | every primary-key name appears in the sorted listing |
| StringOrder.AscendingUnique | rule-engine/src/main/java/com/uetty/rule/config/redis/operations/impl/ReactiveClassOperationsImpl.java:319 | two ascending listings of the same names are equal: the sorted order is unique |
| StringOrder.SortedKeys | rule-engine/src/main/java/com/uetty/rule/config/redis/operations/impl/ReactiveClassOperationsImpl.java:317-319 | the selection loop lists the key map's names as the unique ascending listing |
| CompositeKeys.KeyMapOfContents | rule-engine/src/main/java/com/uetty/rule/config/redis/operations/impl/ReactiveClassOperationsImpl.java:305-315 | `keyMap` holds exactly the primary-key field names, each mapped to the object's value for it |
| CompositeKeys.CompositeKey | rule-engine/src/main/java/com/uetty/rule/config/redis/operations/impl/ReactiveClassOperationsImpl.java:304-324 | the composite key of an object: a null primary value or no primary key fails, otherwise the rendered primary values joined by ":" in ascending field-name order (proved in `CompositeKeyIsAscendingJoin` and `CompositeKeyFails`) |
| CompositeKeys.GetHashKeyPre | rule-engine/src/main/java/com/uetty/rule/config/redis/operations/impl/ReactiveClassOperationsImpl.java:304-324 | the method's loop computes the composite key, failing on a null primary-key value and on a class without primary key |
| CompositeKeys.CompositeKeyIsAscendingJoin | rule-engine/src/main/java/com/uetty/rule/config/redis/operations/impl/ReactiveClassOperationsImpl.java:317-322 | a composite key is the rendered primary-key values, joined with `:` in ascending order of field name |
| CompositeKeys.CompositeKeyFails | rule-engine/src/main/java/com/uetty/rule/config/redis/operations/impl/ReactiveClassOperationsImpl.java:308-316 | composing fails exactly for a null primary-key value or a class with no primary key, and the null check takes precedence |
| CompositeKeys.CompositeKeyDeclarationOrder | rule-engine/src/main/java/com/uetty/rule/config/redis/operations/impl/ReactiveClassOperationsImpl.java:304-324 | reordering the field declarations does not change the composite key |
| CompositeKeys.CompositeKeySingle | rule-engine/src/main/java/com/uetty/rule/config/redis/operations/impl/ReactiveClassOperationsImpl.java:317-322 | with one primary-key field the composite key is that field's value as text |
| HashMapper.FieldKeyLastColon | rule-engine/src/main/java/com/uetty/rule/config/redis/operations/impl/ReactiveClassOperationsImpl.java:142 | the last colon of a hash field is the one between the composite key and the colon-free field name |
| HashMapper.FieldKeyInjective | rule-engine/src/main/java/com/uetty/rule/config/redis/operations/impl/ReactiveClassOperationsImpl.java:142 | distinct (composite key, field name) pairs get distinct hash fields |
| HashMapper.GetKey | rule-engine/src/main/java/com/uetty/rule/config/redis/operations/impl/ReactiveClassOperationsImpl.java:177-186 | an explicit key wins; otherwise the class's `@RedisKey` value, a missing class fails its assertion and a missing annotation dereferences null |
| HashMapper.AcceptedCount | rule-engine/src/main/java/com/uetty/rule/config/redis/operations/impl/ReactiveClassOperationsImpl.java:132-148 | the number of elements gathered before the first one that is null, whose composite key fails or whose class differs from the first |
| HashMapper.AcceptedCountIs | rule-engine/src/main/java/com/uetty/rule/config/redis/operations/impl/ReactiveClassOperationsImpl.java:132-148 | the accepted count is exactly the position of the first rejected object |
| HashMapper.KeyedRun | rule-engine/src/main/java/com/uetty/rule/config/redis/operations/impl/ReactiveClassOperationsImpl.java:139 | each accepted object is paired with its own composite key, in order |
| HashMapper.FieldEntriesContents | rule-engine/src/main/java/com/uetty/rule/config/redis/operations/impl/ReactiveClassOperationsImpl.java:140-143 | one object contributes exactly one hash field per declared field, each holding that field's value |
| HashMapper.FirstClass | rule-engine/src/main/java/com/uetty/rule/config/redis/operations/impl/ReactiveClassOperationsImpl.java:135-138 | the class taken from the first element; none for an empty collection or a null first element, whose `getClass()` throws before `clazz` is set |
| HashMapper.PutClassRequest | rule-engine/src/main/java/com/uetty/rule/config/redis/operations/impl/ReactiveClassOperationsImpl.java:129-153 | the `HMSET` request of `putClass`: the class of the first element, the map of the accepted leading objects (empty when the first element is null), under the key `getKey` resolves |
| HashMapper.PutClass | rule-engine/src/main/java/com/uetty/rule/config/redis/operations/impl/ReactiveClassOperationsImpl.java:129-153 | the request handed to `HMSET` is the gathered map under the resolved collection key, or the key resolution's failure |
| HashMapper.Gather | rule-engine/src/main/java/com/uetty/rule/config/redis/operations/impl/ReactiveClassOperationsImpl.java:130-148 | the loop takes the class from the first element (none when it is null) and builds the map of the accepted prefix; a null element or a thrown exception ends it and keeps what was gathered |
| HashMapper.AddFields | rule-engine/src/main/java/com/uetty/rule/config/redis/operations/impl/ReactiveClassOperationsImpl.java:140-143 | the inner loop adds one object's field entries to the map, overwriting equal hash fields |
| HashMapper.WrittenStep | rule-engine/src/main/java/com/uetty/rule/config/redis/operations/impl/ReactiveClassOperationsImpl.java:134-145 | one more accepted object adds its entries and re-puts `@class` |
| HashMapper.WrittenClassField | rule-engine/src/main/java/com/uetty/rule/config/redis/operations/impl/ReactiveClassOperationsImpl.java:144 | as soon as one object is written, `@class` names the class |
| HashMapper.StoresFieldSnoc | rule-engine/src/main/java/com/uetty/rule/config/redis/operations/impl/ReactiveClassOperationsImpl.java:140-144 | the hash fields of a longer run are those of the run plus those of the new object |
| HashMapper.WrittenKeys | rule-engine/src/main/java/com/uetty/rule/config/redis/operations/impl/ReactiveClassOperationsImpl.java:134-145 | the written map holds `@class` and one field per (object, declared field), and nothing else |
| HashMapper.WrittenLastWins | rule-engine/src/main/java/com/uetty/rule/config/redis/operations/impl/ReactiveClassOperationsImpl.java:140-143 | each field of an object is stored with its value unless a later object with the same composite key overwrote it |
| HashMapper.PutClassTarget | rule-engine/src/main/java/com/uetty/rule/config/redis/operations/impl/ReactiveClassOperationsImpl.java:149-152 | an explicit key is always the target; without one the first object's `@RedisKey` is, and an empty call, a null first element or a missing annotation fails |
| HashMapper.PutClassStopsAtRejected | rule-engine/src/main/java/com/uetty/rule/config/redis/operations/impl/ReactiveClassOperationsImpl.java:132-148 | objects after a rejected one contribute nothing, and the partial write is still issued |
| HashMapper.PutClassFirstRejected | rule-engine/src/main/java/com/uetty/rule/config/redis/operations/impl/ReactiveClassOperationsImpl.java:135-148 | when the first object is rejected an empty `HMSET` request is still issued under the resolved key |
| HashMapper.PutClassNullFirst | rule-engine/src/main/java/com/uetty/rule/config/redis/operations/impl/ReactiveClassOperationsImpl.java:135-152 | a null first element leaves no class: an empty `HMSET` request is issued under an explicit key, and without one the class assertion fails |
| ClassFields.PrimaryNamesContents | rule-engine/src/main/java/com/uetty/rule/config/redis/operations/impl/ReactiveClassOperationsImpl.java:329-332 | `primaryKey` lists exactly the annotated field names |
| ClassFields.PrimaryNamesAppend | rule-engine/src/main/java/com/uetty/rule/config/redis/operations/impl/ReactiveClassOperationsImpl.java:329-332 | `primaryKey` keeps declaration order |
| ClassFields.SelectedContents | rule-engine/src/main/java/com/uetty/rule/config/redis/operations/impl/ReactiveClassOperationsImpl.java:333-337 | the callback runs on exactly the declared fields the column filter lets through |
| ClassFields.SelectedAll | rule-engine/src/main/java/com/uetty/rule/config/redis/operations/impl/ReactiveClassOperationsImpl.java:333 | without requested columns the callback runs on every declared field, in order |
| ClassFields.SelectedAppend | rule-engine/src/main/java/com/uetty/rule/config/redis/operations/impl/ReactiveClassOperationsImpl.java:329-338 | the selection keeps declaration order |
| ClassFields.SelectedOrder | rule-engine/src/main/java/com/uetty/rule/config/redis/operations/impl/ReactiveClassOperationsImpl.java:329-338 | two positions of the selection come from two declared positions in the same order |
| ClassFields.SelectedWellFormed | rule-engine/src/main/java/com/uetty/rule/config/redis/operations/impl/ReactiveClassOperationsImpl.java:333-337 | the selected fields of a class keep distinct, non-empty, colon-free names |
| ClassFields.GetClassField | rule-engine/src/main/java/com/uetty/rule/config/redis/operations/impl/ReactiveClassOperationsImpl.java:326-340 | the loop returns the primary-key names (whatever the filter), every declared field and the class, and the fields the callback ran on |
| Records.CollectionText | rule-engine/src/main/java/com/uetty/rule/config/redis/operations/impl/ReactiveClassOperationsImpl.java:231 | `Objects.toString` of the carrier collection: the elements' texts between brackets, separated by ", " (used by `HashKeys.ScalarBranchUsesCollectionText`) |
| HashKeys.ArgKeyOf | rule-engine/src/main/java/com/uetty/rule/config/redis/operations/impl/ReactiveClassOperationsImpl.java:223 | the composite key of a carrier: a record's own key, a null carrier dereferences null, any other value has no primary key |
| HashKeys.CarrierKeys | rule-engine/src/main/java/com/uetty/rule/config/redis/operations/impl/ReactiveClassOperationsImpl.java:219-223 | one composite-key outcome per carrier, in order |
| HashKeys.KeysUpToContents | rule-engine/src/main/java/com/uetty/rule/config/redis/operations/impl/ReactiveClassOperationsImpl.java:217-235 | listing for one field succeeds exactly when no carrier fails (with a hint), and lists one key per carrier, `compositeKey:name` with a hint and `collectionText:name` without |
| HashKeys.KeysUpToStops | rule-engine/src/main/java/com/uetty/rule/config/redis/operations/impl/ReactiveClassOperationsImpl.java:219-229 | the first carrier whose composite key fails decides the exception; it is not swallowed |
| HashKeys.FindHashKey | rule-engine/src/main/java/com/uetty/rule/config/redis/operations/impl/ReactiveClassOperationsImpl.java:217-235 | the loop lists those keys; the `preKey` check can only skip when the whole collection is a key, and `preKey` only gains carriers |
| HashKeys.CollectKeys | rule-engine/src/main/java/com/uetty/rule/config/redis/operations/impl/ReactiveClassOperationsImpl.java:190-194 | the callback gathers the keys of every selected field in order, and `preKey` only ever holds single carriers, so the dedup check never fires |
| HashKeys.KeysForStops | rule-engine/src/main/java/com/uetty/rule/config/redis/operations/impl/ReactiveClassOperationsImpl.java:194 | once collecting fails, later fields keep the same exception |
| HashKeys.KeysForFails | rule-engine/src/main/java/com/uetty/rule/config/redis/operations/impl/ReactiveClassOperationsImpl.java:194 | collecting fails exactly when there is a hint, some selected field, and a carrier whose composite key fails |
| HashKeys.KeysForContents | rule-engine/src/main/java/com/uetty/rule/config/redis/operations/impl/ReactiveClassOperationsImpl.java:194 | the collected keys are exactly the hash fields asked for on behalf of a selected field and a carrier |
| HashKeys.ScalarBranchUsesCollectionText | rule-engine/src/main/java/com/uetty/rule/config/redis/operations/impl/ReactiveClassOperationsImpl.java:231 | without a hint, carrier `100` asks for `[100]:userId` while `putClass` stored `100:userId` |
| Demultiplex.SegmentsEmptyOfSeparators | rule-engine/src/main/java/com/uetty/rule/config/redis/operations/impl/ReactiveClassOperationsImpl.java:268-269 | text made only of separators splits into empty pieces only |
| Demultiplex.SeparatorsOfSegmentsEmpty | rule-engine/src/main/java/com/uetty/rule/config/redis/operations/impl/ReactiveClassOperationsImpl.java:268-269 | text whose split pieces are all empty consists of separators only |
| Demultiplex.SegmentsAllEmpty | rule-engine/src/main/java/com/uetty/rule/config/redis/operations/impl/ReactiveClassOperationsImpl.java:268-269 | all pieces of a split are empty exactly when the key is all colons |
| Demultiplex.DropTrailingEmptyNothing | rule-engine/src/main/java/com/uetty/rule/config/redis/operations/impl/ReactiveClassOperationsImpl.java:268-269 | `split` yields no pieces exactly when every piece is empty |
| Demultiplex.SplitFieldKey | rule-engine/src/main/java/com/uetty/rule/config/redis/operations/impl/ReactiveClassOperationsImpl.java:266-275 | one step of `toMap`: the split must give a piece, the composite key is the text before the last colon and the field name the last piece; its outcomes are stated by `SplitFieldKeyFails`, `SplitFieldKeyShape` and `SplitFieldKeyRoundTrip` |
| Demultiplex.SplitFieldKeyFails | rule-engine/src/main/java/com/uetty/rule/config/redis/operations/impl/ReactiveClassOperationsImpl.java:268-270 | reading a hash field fails on a key without colon (substring bound) or made only of colons (split assertion), and only then |
| Demultiplex.SplitFieldKeyShape | rule-engine/src/main/java/com/uetty/rule/config/redis/operations/impl/ReactiveClassOperationsImpl.java:268-275 | a read hash field is cut at its last colon and its field name is non-empty and colon-free |
| Demultiplex.SplitFieldKeyRoundTrip | rule-engine/src/main/java/com/uetty/rule/config/redis/operations/impl/ReactiveClassOperationsImpl.java:268-275 | a key built from a composite key and a colon-free field name reads back as that pair |
| Demultiplex.SplitFieldKeyTrailingColon | rule-engine/src/main/java/com/uetty/rule/config/redis/operations/impl/ReactiveClassOperationsImpl.java:268-275 | a key ending in a colon takes its field name from the last non-empty piece, not from after the last colon |
| Demultiplex.SplitUpTo | rule-engine/src/main/java/com/uetty/rule/config/redis/operations/impl/ReactiveClassOperationsImpl.java:265-270 | reading the first n key readings gives n pairs when it succeeds |
| Demultiplex.SplitUpToContents | rule-engine/src/main/java/com/uetty/rule/config/redis/operations/impl/ReactiveClassOperationsImpl.java:265-275 | the pairs are the successful readings, position by position |
| Demultiplex.SplitUpToStops | rule-engine/src/main/java/com/uetty/rule/config/redis/operations/impl/ReactiveClassOperationsImpl.java:265-270 | reading fails with the failure of the first reading that did not succeed |
| Demultiplex.SplitUpToReadable | rule-engine/src/main/java/com/uetty/rule/config/redis/operations/impl/ReactiveClassOperationsImpl.java:265-270 | reading succeeds when every reading succeeds |
| Demultiplex.ToMap | rule-engine/src/main/java/com/uetty/rule/config/redis/operations/impl/ReactiveClassOperationsImpl.java:262-280 | the loop computes the grouping, or the first assertion that fails |
| Demultiplex.GroupFields | rule-engine/src/main/java/com/uetty/rule/config/redis/operations/impl/ReactiveClassOperationsImpl.java:271-277 | the groups hold a field exactly for each (composite key, field name) pair |
| Demultiplex.GroupKeys | rule-engine/src/main/java/com/uetty/rule/config/redis/operations/impl/ReactiveClassOperationsImpl.java:271-277 | there is a group exactly for each composite key read |
| Demultiplex.GroupLastWins | rule-engine/src/main/java/com/uetty/rule/config/redis/operations/impl/ReactiveClassOperationsImpl.java:276 | a field named by several pairs holds the value of the last one |
| Demultiplex.DemuxOk | rule-engine/src/main/java/com/uetty/rule/config/redis/operations/impl/ReactiveClassOperationsImpl.java:263-269 | `toMap` succeeds exactly when the lengths agree and every key is readable |
| Demultiplex.DemuxFields | rule-engine/src/main/java/com/uetty/rule/config/redis/operations/impl/ReactiveClassOperationsImpl.java:265-278 | the result holds field `name` of group `hash` exactly when some key reads as that pair |
| Demultiplex.DemuxLastWins | rule-engine/src/main/java/com/uetty/rule/config/redis/operations/impl/ReactiveClassOperationsImpl.java:276-277 | each value lands under its key's composite key and field name unless a later key splits into the same pair |
| Demultiplex.DemuxGroups | rule-engine/src/main/java/com/uetty/rule/config/redis/operations/impl/ReactiveClassOperationsImpl.java:270-277 | there is a group for a composite key exactly when some key reads with it |
| ClassReader.ResolveClass | rule-engine/src/main/java/com/uetty/rule/config/redis/operations/impl/ReactiveClassOperationsImpl.java:287-299 | `getClassByName`: the hint, or the registered class named by `@class`; no `@class` is the empty result, a stored null fails with a `NullPointerException`, an unknown name with `ClassNotFound`, a non-text value with `ClassCast` (proved in `ResolveClassCases`) |
| ClassReader.ResolveClassCases | rule-engine/src/main/java/com/uetty/rule/config/redis/operations/impl/ReactiveClassOperationsImpl.java:287-299 | the hint wins; otherwise `@class` is looked up: absent gives no result, a stored null fails with a `NullPointerException`, an unknown name or non-text value fails, a known name gives that class |
| ClassReader.Fetch | rule-engine/src/main/java/com/uetty/rule/config/redis/operations/impl/ReactiveClassOperationsImpl.java:204-205 | `HMGET` answers one value per asked field, in order |
| ClassReader.RebuildFields | rule-engine/src/main/java/com/uetty/rule/config/redis/operations/impl/ReactiveClassOperationsImpl.java:244-248 | a rebuilt object is of the read class and each declared field holds its group value, or null |
| ClassReader.DoFinally | rule-engine/src/main/java/com/uetty/rule/config/redis/operations/impl/ReactiveClassOperationsImpl.java:240-255 | one object per group, in the map's iteration order, each rebuilt from its group; as many objects as groups, every group's object among them and nothing else |
| ClassReader.ListsExactly | rule-engine/src/main/java/com/uetty/rule/config/redis/operations/impl/ReactiveClassOperationsImpl.java:240-255 | a listing of the groups holds the rebuilt object of every group and no other object |
| ClassReader.ReadGroups | rule-engine/src/main/java/com/uetty/rule/config/redis/operations/impl/ReactiveClassOperationsImpl.java:188-205 | what a read computes up to `toMap`: class resolution, key collection inside the field scan, the single-primary-key check for a read without a hint, `HMGET` on the stored hash and `toMap`, each failure in that order |
| ClassReader.GetClassDetail | rule-engine/src/main/java/com/uetty/rule/config/redis/operations/impl/ReactiveClassOperationsImpl.java:188-208 | the read follows class resolution, key collection, the single-primary-key check, `HMGET`, `toMap` and `doFinally`, failing as they fail |
| ClassReader.ReadStoredNullClass | rule-engine/src/main/java/com/uetty/rule/config/redis/operations/impl/ReactiveClassOperationsImpl.java:289-290 | without a hint, a collection whose `@class` holds null fails the read with a `NullPointerException` |
| ClassReader.ReadSinglePrimaryKey | rule-engine/src/main/java/com/uetty/rule/config/redis/operations/impl/ReactiveClassOperationsImpl.java:195-197 | a read without hint only succeeds for a class with exactly one primary-key field |
| ClassReader.GroupsOnlyAsked | rule-engine/src/main/java/com/uetty/rule/config/redis/operations/impl/ReactiveClassOperationsImpl.java:262-280 | splitting the answer only yields names of the fields asked for |
| ClassReader.ReadOnlySelected | rule-engine/src/main/java/com/uetty/rule/config/redis/operations/impl/ReactiveClassOperationsImpl.java:188-207 | every field of every group read is a selected field of the read class |
| ClassReader.UnrequestedColumnsNull | rule-engine/src/main/java/com/uetty/rule/config/redis/operations/impl/ReactiveClassOperationsImpl.java:243-248 | a declared field outside the requested columns comes back null |
| PropertyNames.MethodToProperty | rule-engine/src/main/java/com/uetty/rule/config/redis/operations/impl/ReactiveClassOperationsImpl.java:342-356 | `methodToProperty`: strip `is`, or `get`/`set`, then lower-case the first letter unless the second is upper-case; any other name fails (cases proved in `MethodToPropertyCases`) |
| PropertyNames.MethodToPropertyCases | rule-engine/src/main/java/com/uetty/rule/config/redis/operations/impl/ReactiveClassOperationsImpl.java:342-350 | conversion fails exactly for names without an `is`, `get` or `set` prefix; `is` is stripped first, else three characters |
| PropertyNames.DecapitalizeCases | rule-engine/src/main/java/com/uetty/rule/config/redis/operations/impl/ReactiveClassOperationsImpl.java:351-353 | the first character is lower-cased when the rest has one character or a non-upper-case second character; otherwise the text is kept |
| PropertyNames.AccessorRoundTrip | rule-engine/src/main/java/com/uetty/rule/config/redis/operations/impl/ReactiveClassOperationsImpl.java:342-356 | the accessor of a lower-case property converts back to the property |
| PropertyNames.MethodToPropertyExamples | rule-engine/src/main/java/com/uetty/rule/config/redis/operations/impl/ReactiveClassOperationsImpl.java:342-356 | `getName` gives `name`, `isActive` `active`, `getURL` `URL`, `setX` `x`, `get` the empty name, `fetchName` fails |
| RoundTrip.OneCarrierKeys | rule-engine/src/main/java/com/uetty/rule/config/redis/operations/impl/ReactiveClassOperationsImpl.java:225 | one hash field per selected field for a single carrier |
| RoundTrip.KeysForOneCarrier | rule-engine/src/main/java/com/uetty/rule/config/redis/operations/impl/ReactiveClassOperationsImpl.java:219-226 | with a hint and one record carrier the asked fields are its composite key joined with each selected name |
| RoundTrip.OneCarrierSplits | rule-engine/src/main/java/com/uetty/rule/config/redis/operations/impl/ReactiveClassOperationsImpl.java:268-275 | each such field reads back as the carrier's key and the field name |
| RoundTrip.OneCarrierDemuxOk | rule-engine/src/main/java/com/uetty/rule/config/redis/operations/impl/ReactiveClassOperationsImpl.java:262-280 | the answer for one carrier always splits |
| RoundTrip.OneCarrierGroup | rule-engine/src/main/java/com/uetty/rule/config/redis/operations/impl/ReactiveClassOperationsImpl.java:270-277 | it forms one group under the carrier's key, or none when no field was asked |
| RoundTrip.OneCarrierNames | rule-engine/src/main/java/com/uetty/rule/config/redis/operations/impl/ReactiveClassOperationsImpl.java:271-277 | the group holds exactly the asked names |
| RoundTrip.OneCarrierValue | rule-engine/src/main/java/com/uetty/rule/config/redis/operations/impl/ReactiveClassOperationsImpl.java:276 | each asked field holds the value fetched for it |
| RoundTrip.StoredRun | rule-engine/src/main/java/com/uetty/rule/config/redis/operations/impl/ReactiveClassOperationsImpl.java:134-145 | when every object is accepted the write holds the whole run |
| RoundTrip.HMSet | rule-engine/src/main/java/com/uetty/rule/config/redis/operations/impl/ReactiveClassOperationsImpl.java:152 | the store after `HMSET`: the written fields are set, every other field of the hash and every other hash is kept |
| RoundTrip.HMSetKeeps | rule-engine/src/main/java/com/uetty/rule/config/redis/operations/impl/ReactiveClassOperationsImpl.java:152 | a later `HMSET` keeps what the hash held unless it writes one of those fields with another value: writes to a collection accumulate |
| RoundTrip.FetchWritten | rule-engine/src/main/java/com/uetty/rule/config/redis/operations/impl/ReactiveClassOperationsImpl.java:204-205 | reading, from a hash that holds the written map, the fields of an object no later object shares a key with returns exactly that object's values |
| RoundTrip.ReadOneRecord | rule-engine/src/main/java/com/uetty/rule/config/redis/operations/impl/ReactiveClassOperationsImpl.java:188-207 | a hinted read of one record asks for its selected fields and splits them into one group |
| RoundTrip.ReadBackStored | rule-engine/src/main/java/com/uetty/rule/config/redis/operations/impl/ReactiveClassOperationsImpl.java:188-255 | when the stored hash holds the written map (other writes may have added fields), reading an object back succeeds and gives one object of the class with the requested fields as written and the others null |
| RoundTrip.ReadBackFields | rule-engine/src/main/java/com/uetty/rule/config/redis/operations/impl/ReactiveClassOperationsImpl.java:243-248 | the rebuilt object agrees with the written one on requested fields and is null elsewhere |
| RoundTrip.ReadBackField | rule-engine/src/main/java/com/uetty/rule/config/redis/operations/impl/ReactiveClassOperationsImpl.java:243-248 | the same for one declared field |
| RoundTrip.UnrequestedName | rule-engine/src/main/java/com/uetty/rule/config/redis/operations/impl/ReactiveClassOperationsImpl.java:333-335 | no selected field shares the name of an unrequested field |
| RoundTrip.RequestedField | rule-engine/src/main/java/com/uetty/rule/config/redis/operations/impl/ReactiveClassOperationsImpl.java:276 | a requested field holds its fetched value |
| RoundTrip.OtherField | rule-engine/src/main/java/com/uetty/rule/config/redis/operations/impl/ReactiveClassOperationsImpl.java:271-277 | a name no requested field carries is absent from the group |
| RoundTrip.ReadBack | rule-engine/src/main/java/com/uetty/rule/config/redis/operations/impl/ReactiveClassOperationsImpl.java:129-255 | after `putClass` and its `HMSET` merge into whatever the collection held, a hinted read of an object by itself succeeds and returns it with the requested fields as written and the rest null |
| TimeUnits.ToMillis | rule-engine/src/main/java/com/uetty/rule/config/redis/operations/impl/ReactiveLockOperationsImpl.java:134 | `toMillis` of a `long` is a `long` |
| TimeUnits.ToMillisIsClampedExact | rule-engine/src/main/java/com/uetty/rule/config/redis/operations/impl/ReactiveLockOperationsImpl.java:134 | `toMillis` is the exact duration in milliseconds, rounded toward zero and clamped to the `long` range |
| TimeUnits.ToMillisMonotonic | rule-engine/src/main/java/com/uetty/rule/config/redis/operations/impl/ReactiveLockOperationsImpl.java:134 | a longer lease never converts to fewer milliseconds |
| TimeUnits.DefaultLeaseMillis | rule-engine/src/main/java/com/uetty/rule/config/redis/operations/impl/ReactiveLockOperationsImpl.java:32-34 | 30 seconds is 30000 milliseconds |
| ReactiveLocks.PrefixName | rule-engine/src/main/java/com/uetty/rule/config/redis/operations/impl/ReactiveLockOperationsImpl.java:186-191 | the result starts with the prefix and a colon, has a `{` after it, and contains the name |
| ReactiveLocks.PrefixNameTail | rule-engine/src/main/java/com/uetty/rule/config/redis/operations/impl/ReactiveLockOperationsImpl.java:186-191 | after the prefix and colon comes the name, wrapped in braces unless it holds `{` |
| ReactiveLocks.PrefixNameCollisions | rule-engine/src/main/java/com/uetty/rule/config/redis/operations/impl/ReactiveLockOperationsImpl.java:186-191 | two names collide exactly when equal or when one is the other, brace-free, wrapped in braces |
| ReactiveLocks.ChannelName | rule-engine/src/main/java/com/uetty/rule/config/redis/operations/impl/ReactiveLockOperationsImpl.java:182-184 | `getChannelName`: `PrefixName` with the topic `redis_lock_topic`; which keys share a channel is stated by `ChannelNameCollisions` |
| ReactiveLocks.ChannelNameCollisions | rule-engine/src/main/java/com/uetty/rule/config/redis/operations/impl/ReactiveLockOperationsImpl.java:182-184 | the same for channel names |
| ReactiveLocks.ChannelNameInjective | rule-engine/src/main/java/com/uetty/rule/config/redis/operations/impl/ReactiveLockOperationsImpl.java:182-184 | among keys that agree on holding `{`, channel names are equal exactly when the keys are |
| ReactiveLocks.ChannelNameCollide | rule-engine/src/main/java/com/uetty/rule/config/redis/operations/impl/ReactiveLockOperationsImpl.java:182-184 | keys `a` and `{a}` share a channel |
| ReactiveLocks.PrefixTagIsName | rule-engine/src/main/java/com/uetty/rule/config/redis/operations/impl/ReactiveLockOperationsImpl.java:186-191 | wrapping a brace-free name makes it the hash tag of the result |
| ReactiveLocks.ChannelTagIsKey | rule-engine/src/main/java/com/uetty/rule/config/redis/operations/impl/ReactiveLockOperationsImpl.java:182-191 | a brace-free key is its channel's hash tag, so channel and key share a cluster slot |
| ReactiveLocks.ChannelTagKept | rule-engine/src/main/java/com/uetty/rule/config/redis/operations/impl/ReactiveLockOperationsImpl.java:182-191 | a key holding `{` gives its channel its own hash tag |
| ReactiveLocks.LockOperations.constructor | rule-engine/src/main/java/com/uetty/rule/config/redis/operations/impl/ReactiveLockOperationsImpl.java:32-35 | the lease starts at 30000 ms and the instance keeps its UUID |
| ReactiveLocks.LockOperations.LockName | rule-engine/src/main/java/com/uetty/rule/config/redis/operations/impl/ReactiveLockOperationsImpl.java:193-195 | the owner token starts with the instance's UUID and a colon |
| ReactiveLocks.LockOperations.EntryName | rule-engine/src/main/java/com/uetty/rule/config/redis/operations/impl/ReactiveLockOperationsImpl.java:178-180 | the entry name is the UUID, a colon, and exactly the key name after it |
| ReactiveLocks.LockOperations.TryLockInner | rule-engine/src/main/java/com/uetty/rule/config/redis/operations/impl/ReactiveLockOperationsImpl.java:133-145 | the lease is stored in milliseconds; KEYS is `[key]` and ARGV `[lease ms, owner token]`; a null unit throws before any change |
| ReactiveLocks.LockOperations.TryAcquire | rule-engine/src/main/java/com/uetty/rule/config/redis/operations/impl/ReactiveLockOperationsImpl.java:123-130 | lease -1 selects 30 SECONDS (30000 ms, never failing); any other lease passes through with its unit |
| ReactiveLocks.LockOperations.TryAcquireOnce | rule-engine/src/main/java/com/uetty/rule/config/redis/operations/impl/ReactiveLockOperationsImpl.java:65-70 | lease -1 gives null with no script call and no change; otherwise as `tryLockInnerAsync` |
| ReactiveLocks.LockNamesDistinct | rule-engine/src/main/java/com/uetty/rule/config/redis/operations/impl/ReactiveLockOperationsImpl.java:193-195 | owner tokens are equal exactly when both UUIDs and thread ids are |
| ReactiveLocks.EntryNamesDistinct | rule-engine/src/main/java/com/uetty/rule/config/redis/operations/impl/ReactiveLockOperationsImpl.java:178-180 | entry names are equal exactly when both UUIDs and key names are |

## Left out

- The Redis round trips are not modelled: `HMSET`, `HMGET`, `HGET`, script execution, publish and subscribe. Neither is the Reactor `Mono`/`Flux` plumbing. These are network I/O; the requests handed to them are modelled instead, a read looks the hash up in a store map, and `RoundTrip.HMSet` gives the store after an `HMSET`.
- HashMapper.PutClassRequest: stops at the request. When the gathered field map is empty (the first element null or rejected, with an explicit or annotated key), Redis's `HMSET` needs at least one field and the client rejects the call, so the source's `Mono` fails and nothing is written; the model returns the empty request and does not model that failure.
- The serializers (`rawKey`, `rawHashKey`, `rawHashValue`, `deserializeObjects`, `readString`) are taken as identity on values.
- Reflection (`getDeclaredFields`, `field.get`/`set`, `setAccessible`, `getDeclaredConstructor().newInstance()`) becomes explicit schemas and records.
- ClassReader.DoFinally: does not model a failing constructor or a failing `field.set`. The latter covers a stored value whose type does not match the field (an `IllegalArgumentException`) and a null set into a primitive field. The schema carries no field types. In the source `doFinally` catches such an exception and returns the objects built before it; the model always builds one object per group.
- `Class.forName` becomes a lookup in a registry of class names.
- The order in which `doFinally` walks the `HashMap` is not modelled. `ClassReader.DoFinally` returns it as a ghost enumeration of the groups instead.
- The `getClass` overloads (`ReactiveClassOperationsImpl.java` lines 155-175) and `columnsToString` with `LambdaUtils` are not part of this model. They build a read's arguments from lambdas and casts; `getClassDetail` is modelled from its arguments on.
- Nested objects as field values are not modelled. Field values are null, strings, integers and booleans.
- The text of a record carrier is a parameter, because `toString` is user code.
- Strings are sequences of Unicode code points, not UTF-16 units. Case mapping covers ASCII letters only, which `Locale.ENGLISH` agrees with for ASCII names.
- When a read asks for no hash field, the model's `HMGET` answers with no values. What the server does with an empty `HMGET` is not modelled.
- The Lua lock script is not part of this model: its reentrancy, hold counts, TTLs and the unlock protocol.
- `lockInterruptibly` is not modelled. It builds a reactive chain around pub/sub waiting and discards it.
- The stubbed `tryLock`, `unlock`, `isLocked`, `getHoldCount`, `forceUnlock`, `newCondition` and the Redisson `main` demo are left out.
- `Thread.currentThread().getId()` is a `threadId` parameter.
- ReactiveLocks.ChannelNameInjective: stated only among keys that agree on containing `{`. Over all keys the channel name is not injective (`ReactiveLocks.ChannelNameCollide`); `ReactiveLocks.ChannelNameCollisions` states exactly which keys collide.
- ReactiveLocks.LockOperations.LockName: does not model a `null` UUID. The instance's UUID is text in the `UUID.toString` format.
