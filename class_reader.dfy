/** Reading records back (`getClassDetail` and `doFinally`): resolve the
    class, ask `HMGET` for one hash field per selected field and carrier,
    split the answer into groups by composite key and build one object per
    group. The Redis store is a parameter: a map from collection key to the
    hash stored under it. */
module ClassReader {
  import opened Outcomes
  import opened Records
  import opened CompositeKeys
  import opened HashMapper
  import opened ClassFields
  import opened HashKeys
  import opened Demultiplex

  /** The hash stored under `key`; a missing key reads as an empty hash. */
  function HashAt(store: map<string, map<string, Scalar>>, key: string): map<string, Scalar>
  {
    if key in store then store[key] else map[]
  }

  /** `HGET key @class`: nothing when the field is absent. */
  function StoredClass(hash: map<string, Scalar>): Option<Scalar>
  {
    if CLASS_FIELD in hash then Some(hash[CLASS_FIELD]) else None
  }

  /** `getClassByName(key, clazz)` with `Class.forName` replaced by a lookup
      in `registry`. `Ok(None)` is the empty `Mono`: no hint and no `@class`
      field, in which case nothing further happens. A stored null makes
      `readString` return null, which the reactive `map` turns into a
      `NullPointerException`. */
  function ResolveClass(hint: Option<Schema>, stored: Option<Scalar>, registry: map<string, Schema>): Result<Option<Schema>>
  {
    if hint.Some? then Ok(hint)
    else
      match stored
      case None => Ok(None)
      case Some(Null) => Err(NullPointer)
      case Some(Str(name)) => if name in registry then Ok(Some(registry[name])) else Err(ClassNotFound)
      case Some(_) => Err(ClassCast)
  }

  /** The class used for the read is the hint when there is one, and
      otherwise the registered class of the stored name; a missing `@class`
      gives the empty result, and a stored null, a stored name that is not
      registered or a stored value that is not a string fails. */
  lemma ResolveClassCases(hint: Option<Schema>, stored: Option<Scalar>, registry: map<string, Schema>)
    ensures hint.Some? ==> ResolveClass(hint, stored, registry) == Ok(hint)
    ensures hint.None? ==>
      (ResolveClass(hint, stored, registry) == Ok(None) <==> stored.None?)
    ensures hint.None? && stored == Some(Null) ==> ResolveClass(hint, stored, registry) == Err(NullPointer)
    ensures hint.None? ==>
      (ResolveClass(hint, stored, registry).Ok? && ResolveClass(hint, stored, registry).value.Some? <==>
        stored.Some? && stored.value.Str? && stored.value.s in registry)
    ensures hint.None? && stored.Some? && stored.value.Str? && stored.value.s in registry ==>
      ResolveClass(hint, stored, registry).value.value == registry[stored.value.s]
    ensures ResolveClass(hint, stored, registry).Err? ==> hint.None? && stored.Some?
  {
  }

  /** `HMGET key k1 .. kn` followed by deserialisation: one value per asked
      field, null for a field the hash does not hold. */
  function Fetch(hash: map<string, Scalar>, keys: seq<string>): (values: seq<Scalar>)
    ensures |values| == |keys|
  {
    seq(|keys|, i requires 0 <= i < |keys| => if keys[i] in hash then hash[keys[i]] else Null)
  }

  /** The object `doFinally` builds from one group: an instance of the class
      whose every declared field is set from the group, or to null when the
      group has no value for it. */
  function Rebuild(c: Schema, group: map<string, Scalar>): Record
  {
    Record(c, map n | n in Names(c.fields) :: if n in group then group[n] else Null)
  }

  /** A rebuilt object is of the read class, and each of its fields holds the
      group's value for a declared field name and null otherwise. */
  lemma RebuildFields(c: Schema, group: map<string, Scalar>, n: string)
    ensures Rebuild(c, group).schema == c
    ensures Get(Rebuild(c, group), n) == if n in Names(c.fields) && n in group then group[n] else Null
  {
  }

  /** `hvs` lists one rebuilt object per group, in the enumeration order
      `order` of the groups' composite keys. */
  ghost predicate Lists(c: Schema, groups: Groups, order: seq<string>, hvs: seq<Record>)
  {
    && |order| == |hvs| == |groups|
    && (forall i, j :: 0 <= i < j < |order| ==> order[i] != order[j])
    && (forall k :: k in groups <==> k in order)
    && (forall i :: 0 <= i < |order| ==> order[i] in groups && hvs[i] == Rebuild(c, groups[order[i]]))
  }

  /** A listing holds one object per group and nothing else. */
  lemma ListsExactly(c: Schema, groups: Groups, order: seq<string>, hvs: seq<Record>)
    requires Lists(c, groups, order, hvs)
    ensures forall k :: k in groups ==> Rebuild(c, groups[k]) in hvs
    ensures forall h :: h in hvs ==> exists k :: k in groups && h == Rebuild(c, groups[k])
  {
    forall k | k in groups
      ensures Rebuild(c, groups[k]) in hvs
    {
      var i :| 0 <= i < |order| && order[i] == k;
      assert hvs[i] == Rebuild(c, groups[k]);
    }
    forall h | h in hvs
      ensures exists k :: k in groups && h == Rebuild(c, groups[k])
    {
      var i :| 0 <= i < |hvs| && hvs[i] == h;
      assert order[i] in groups && h == Rebuild(c, groups[order[i]]);
    }
  }

  /** `doFinally(classField, valueMap)`: walks the groups in the map's own
      iteration order (any order; `order` records the one taken) and builds
      one object per group. */
  method DoFinally(classField: ClassField, valueMap: Groups) returns (hvs: seq<Record>, ghost order: seq<string>)
    ensures Lists(classField.clazz.(fields := classField.declaredFields), valueMap, order, hvs)
    ensures |hvs| == |valueMap|
    ensures forall k :: k in valueMap ==> Rebuild(classField.clazz.(fields := classField.declaredFields), valueMap[k]) in hvs
    ensures forall h :: h in hvs ==> exists k :: k in valueMap && h == Rebuild(classField.clazz.(fields := classField.declaredFields), valueMap[k])
  {
    var c := classField.clazz.(fields := classField.declaredFields);
    hvs := [];
    order := [];
    var rest := valueMap.Keys;
    while rest != {}
      invariant rest <= valueMap.Keys
      invariant |order| == |hvs| && |order| + |rest| == |valueMap.Keys|
      invariant forall i, j :: 0 <= i < j < |order| ==> order[i] != order[j]
      invariant forall k :: k in valueMap ==> k in rest || k in order
      invariant forall i :: 0 <= i < |order| ==> order[i] in valueMap && order[i] !in rest
      invariant forall i :: 0 <= i < |order| ==> hvs[i] == Rebuild(c, valueMap[order[i]])
      decreases |rest|
    {
      var k :| k in rest;
      hvs := hvs + [Rebuild(c, valueMap[k])];
      order := order + [k];
      rest := rest - {k};
    }
    ListsExactly(c, valueMap, order, hvs);
  }

  /** The class and the groups a read ends with, before the objects are
      built. */
  datatype Loaded = Loaded(clazz: Schema, groups: Groups)

  /** What `getClassDetail(key, hashKey, clazz, columns)` computes up to
      `toMap`, or the exception its `Mono` fails with; `Ok(None)` is the empty
      `Mono`. Key collection runs inside the field scan, so its exceptions
      come before the check that a read without a type hint is for a class
      with exactly one primary key. */
  ghost function ReadGroups(key: string, hashKey: seq<Arg>, hint: Option<Schema>, columns: seq<string>,
                            store: map<string, map<string, Scalar>>, registry: map<string, Schema>): Result<Option<Loaded>>
  {
    var hash := HashAt(store, key);
    match ResolveClass(hint, StoredClass(hash), registry)
    case Err(e) => Err(e)
    case Ok(None) => Ok(None)
    case Ok(Some(c)) =>
      match KeysFor(Selected(c.fields, columns), CarrierKeys(hashKey), CollectionText(hashKey), hint.Some?)
      case Err(e) => Err(e)
      case Ok(keys) =>
        if hint.None? && |PrimaryNames(c.fields)| != 1 then Err(NotSinglePrimaryKey)
        else
          match Demux(keys, Fetch(hash, keys))
          case Err(e) => Err(e)
          case Ok(groups) => Ok(Some(Loaded(c, groups)))
  }

  /** `getClassDetail(key, hashKey, clazz, columns)`: the objects read, one
      per group, or the exception, or nothing (the empty `Mono`). */
  method GetClassDetail(key: string, hashKey: seq<Arg>, clazz: Option<Schema>, columns: seq<string>,
                        store: map<string, map<string, Scalar>>, registry: map<string, Schema>)
    returns (r: Result<Option<seq<Record>>>, ghost order: seq<string>)
    ensures ReadGroups(key, hashKey, clazz, columns, store, registry).Err? ==>
      r == Err(ReadGroups(key, hashKey, clazz, columns, store, registry).error)
    ensures ReadGroups(key, hashKey, clazz, columns, store, registry) == Ok(None) ==> r == Ok(None)
    ensures ReadGroups(key, hashKey, clazz, columns, store, registry).Ok? &&
            ReadGroups(key, hashKey, clazz, columns, store, registry).value.Some? ==>
      var loaded := ReadGroups(key, hashKey, clazz, columns, store, registry).value.value;
      r.Ok? && r.value.Some? && Lists(loaded.clazz, loaded.groups, order, r.value.value)
  {
    order := [];
    var hash := HashAt(store, key);
    var resolved := ResolveClass(clazz, StoredClass(hash), registry);
    if resolved.Err? {
      return Err(resolved.error), order;
    }
    if resolved.value.None? {
      return Ok(None), order;
    }
    var clazzNow := resolved.value.value;
    var ret := clazz.Some?;
    var classField, applied := GetClassField(clazzNow, columns);
    var keys := CollectKeys(applied, hashKey, ret);
    if keys.Err? {
      return Err(keys.error), order;
    }
    if !ret && |classField.primaryKey| != 1 {
      return Err(NotSinglePrimaryKey), order;
    }
    classField := classField.(keys := keys.value);
    var values := Fetch(hash, classField.keys);
    var valueMap := ToMap(classField.keys, values);
    if valueMap.Err? {
      return Err(valueMap.error), order;
    }
    var hvs;
    hvs, order := DoFinally(classField, valueMap.value);
    assert clazzNow.(fields := clazzNow.fields) == clazzNow;
    return Ok(Some(hvs)), order;
  }

  /** Without a type hint, a collection whose `@class` holds null fails the
      read with a `NullPointerException` before any key is collected. */
  lemma ReadStoredNullClass(key: string, hashKey: seq<Arg>, columns: seq<string>,
                            store: map<string, map<string, Scalar>>, registry: map<string, Schema>)
    requires key in store && CLASS_FIELD in store[key] && store[key][CLASS_FIELD] == Null
    ensures ReadGroups(key, hashKey, None, columns, store, registry) == Err(NullPointer)
  {
  }

  /** A read without a type hint only succeeds for a class with exactly one
      primary-key field. */
  lemma ReadSinglePrimaryKey(key: string, hashKey: seq<Arg>, columns: seq<string>,
                             store: map<string, map<string, Scalar>>, registry: map<string, Schema>)
    requires ReadGroups(key, hashKey, None, columns, store, registry).Ok?
    requires ReadGroups(key, hashKey, None, columns, store, registry).value.Some?
    ensures var c := ReadGroups(key, hashKey, None, columns, store, registry).value.value.clazz;
      |PrimaryNames(c.fields)| == 1 && forall n :: IsPrimaryName(c, n) <==> n == PrimaryNames(c.fields)[0]
  {
    var c := ReadGroups(key, hashKey, None, columns, store, registry).value.value.clazz;
    var names := PrimaryNames(c.fields);
    PrimaryNamesContents(c.fields);
    assert |names| == 1;
    forall n
      ensures IsPrimaryName(c, n) <==> n == names[0]
    {
      assert n in names <==> n == names[0];
    }
  }

  /** The classes a read can use: the hint and every registered class. */
  ghost predicate ClassesWellFormed(hint: Option<Schema>, registry: map<string, Schema>)
  {
    && (hint.Some? ==> WellFormed(hint.value))
    && (forall n :: n in registry ==> WellFormed(registry[n]))
  }

  /** Splitting the answer to the asked hash fields only yields field names
      of the fields the keys were built for. */
  lemma GroupsOnlyAsked(fields: seq<FieldDecl>, carriers: seq<Result<string>>, text: string, ret: bool,
                        values: seq<Scalar>, h: string, n: string)
    requires forall f :: f in fields ==> f.name != "" && ':' !in f.name
    requires KeysFor(fields, carriers, text, ret).Ok?
    requires Demux(KeysFor(fields, carriers, text, ret).value, values).Ok?
    ensures var groups := Demux(KeysFor(fields, carriers, text, ret).value, values).value;
      h in groups && n in groups[h] ==> exists f :: f in fields && f.name == n
  {
    var keys := KeysFor(fields, carriers, text, ret).value;
    var groups := Demux(keys, values).value;
    if h in groups && n in groups[h] {
      DemuxFields(keys, values, h, n);
      var i :| 0 <= i < |keys| && SplitFieldKey(keys[i]) == Ok((h, n));
      KeysForContents(fields, carriers, text, ret);
      assert keys[i] in keys;
      var f, t :| 0 <= f < |fields| && 0 <= t < |carriers| && AskedFor(fields[f], carriers[t], text, ret, keys[i]);
      assert fields[f] in fields;
      var prefix := if ret then carriers[t].value else text;
      SplitFieldKeyRoundTrip(prefix, fields[f].name);
    }
  }

  /** Every field of every group is a selected field of the read class. */
  lemma ReadOnlySelected(key: string, hashKey: seq<Arg>, hint: Option<Schema>, columns: seq<string>,
                         store: map<string, map<string, Scalar>>, registry: map<string, Schema>, h: string, n: string)
    requires ClassesWellFormed(hint, registry)
    requires ReadGroups(key, hashKey, hint, columns, store, registry).Ok?
    requires ReadGroups(key, hashKey, hint, columns, store, registry).value.Some?
    ensures var loaded := ReadGroups(key, hashKey, hint, columns, store, registry).value.value;
      h in loaded.groups && n in loaded.groups[h] ==> exists f :: f in Selected(loaded.clazz.fields, columns) && f.name == n
  {
    var hash := HashAt(store, key);
    var c := ResolveClass(hint, StoredClass(hash), registry).value.value;
    var sel := Selected(c.fields, columns);
    var keys := KeysFor(sel, CarrierKeys(hashKey), CollectionText(hashKey), hint.Some?).value;
    SelectedContents(c.fields, columns);
    forall f | f in sel
      ensures f.name != "" && ':' !in f.name
    {
      assert f in c.fields;
    }
    GroupsOnlyAsked(sel, CarrierKeys(hashKey), CollectionText(hashKey), hint.Some?, Fetch(hash, keys), h, n);
  }

  /** Columns that were not requested come back null: for a declared field
      the filter leaves out, every object read holds null. */
  lemma UnrequestedColumnsNull(key: string, hashKey: seq<Arg>, hint: Option<Schema>, columns: seq<string>,
                               store: map<string, map<string, Scalar>>, registry: map<string, Schema>,
                               order: seq<string>, hvs: seq<Record>, i: nat, f: FieldDecl)
    requires ClassesWellFormed(hint, registry)
    requires ReadGroups(key, hashKey, hint, columns, store, registry).Ok?
    requires ReadGroups(key, hashKey, hint, columns, store, registry).value.Some?
    requires var loaded := ReadGroups(key, hashKey, hint, columns, store, registry).value.value;
      Lists(loaded.clazz, loaded.groups, order, hvs)
    requires i < |hvs|
    requires var c := ReadGroups(key, hashKey, hint, columns, store, registry).value.value.clazz;
      f in c.fields && !Wanted(columns, f)
    ensures Get(hvs[i], f.name) == Null
  {
    var loaded := ReadGroups(key, hashKey, hint, columns, store, registry).value.value;
    var c := loaded.clazz;
    var g := loaded.groups[order[i]];
    RebuildFields(c, g, f.name);
    SelectedContents(c.fields, columns);
    forall f' | f' in Selected(c.fields, columns)
      ensures f'.name != f.name
    {
      var p :| 0 <= p < |c.fields| && c.fields[p] == f;
      var q :| 0 <= q < |c.fields| && c.fields[q] == f';
      assert p != q;
    }
    ReadOnlySelected(key, hashKey, hint, columns, store, registry, order[i], f.name);
  }
}
