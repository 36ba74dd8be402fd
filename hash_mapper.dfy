/** Writing records into one Redis hash (`putClass`): every declared field of
    every object becomes the hash field `compositeKey:fieldName`, and the
    reserved field `@class` records the class name. The map handed to `HMSET`
    and the key it is written under are modelled; the network call is not. */
module HashMapper {
  import opened Outcomes
  import opened JavaText
  import opened Records
  import opened CompositeKeys

  /** The reserved hash field that names the stored class. */
  const CLASS_FIELD: string := "@class"

  /** The hash field that stores field `name` of the object whose composite key
      is `hash`. */
  function FieldKey(hash: string, name: string): string
  {
    hash + ":" + name
  }

  /** The last ":" of a field key is the one added by `FieldKey`, because a
      field name never contains a colon. */
  lemma {:induction false} FieldKeyLastColon(hash: string, name: string)
    requires ':' !in name
    ensures LastIndexOf(FieldKey(hash, name), ':') == |hash|
    decreases |name|
  {
    var k := FieldKey(hash, name);
    if name != [] {
      var shorter := name[..|name| - 1];
      assert k[..|k| - 1] == FieldKey(hash, shorter);
      FieldKeyLastColon(hash, shorter);
    }
  }

  /** Distinct (composite key, field name) pairs give distinct hash fields. */
  lemma FieldKeyInjective(h1: string, n1: string, h2: string, n2: string)
    requires ':' !in n1 && ':' !in n2
    requires FieldKey(h1, n1) == FieldKey(h2, n2)
    ensures h1 == h2 && n1 == n2
  {
    FieldKeyLastColon(h1, n1);
    FieldKeyLastColon(h2, n2);
    var k := FieldKey(h1, n1);
    assert h1 == k[..|h1|] && h2 == k[..|h2|];
    assert n1 == k[|h1| + 1..] && n2 == k[|h2| + 1..];
  }

  /** `getKey`: the explicit collection key if there is one, otherwise the
      value of the class's `@RedisKey` annotation. Without a class the
      assertion on `clazz` fails; without the annotation the source checks
      `clazz` a second time instead of the annotation and then dereferences
      the missing annotation. */
  function GetKey(key: Option<string>, clazz: Option<Schema>): (r: Result<string>)
    ensures key.Some? ==> r == Ok(key.value)
    ensures key.None? && r.Ok? ==> clazz.Some? && clazz.value.redisKey == Some(r.value)
    ensures key.None? && clazz.None? ==> r == Err(ClassNull)
    ensures key.None? && clazz.Some? && clazz.value.redisKey.None? ==> r == Err(NullPointer)
  {
    if key.Some? then Ok(key.value)
    else if clazz.None? then Err(ClassNull)
    else if clazz.value.redisKey.None? then Err(NullPointer)
    else Ok(clazz.value.redisKey.value)
  }

  /** The accumulation goes on past element `o`: it is not null, its
      composite key exists and it is an instance of the class whose fields
      are being read (otherwise `getHashKeyPre` or `field.get` throws). */
  ghost predicate Accepted(first: Schema, o: Option<Record>)
  {
    o.Some? && CompositeKey(o.value).Ok? && o.value.schema == first
  }

  /** The class `putClass` takes from its first element: none for an empty
      collection, and none when the first element is null, because
      `hv.getClass()` throws before `clazz` is assigned. */
  function FirstClass(values: seq<Option<Record>>): Option<Schema>
  {
    if values == [] || values[0].None? then None else Some(values[0].value.schema)
  }

  /** How many leading objects are accumulated before the first rejected one. */
  ghost function AcceptedCount(first: Schema, objs: seq<Option<Record>>): (k: nat)
    ensures k <= |objs|
    ensures forall i :: 0 <= i < k ==> Accepted(first, objs[i])
    ensures k < |objs| ==> !Accepted(first, objs[k])
  {
    if objs == [] || !Accepted(first, objs[0]) then 0
    else 1 + AcceptedCount(first, objs[1..])
  }

  /** The accepted count is the position of the first rejected object. */
  lemma AcceptedCountIs(first: Schema, objs: seq<Option<Record>>, i: nat)
    requires i <= |objs|
    requires forall j :: 0 <= j < i ==> Accepted(first, objs[j])
    requires i < |objs| ==> !Accepted(first, objs[i])
    ensures AcceptedCount(first, objs) == i
  {
  }

  /** An accepted object paired with its composite key. */
  datatype Keyed = Keyed(hash: string, obj: Record)

  /** The accepted objects, each paired with its composite key. */
  ghost function KeyedRun(first: Schema, objs: seq<Option<Record>>): (ks: seq<Keyed>)
    requires forall i :: 0 <= i < |objs| ==> Accepted(first, objs[i])
    ensures |ks| == |objs|
    ensures forall i :: 0 <= i < |ks| ==> objs[i] == Some(ks[i].obj) && CompositeKey(ks[i].obj) == Ok(ks[i].hash)
  {
    seq(|objs|, i requires 0 <= i < |objs| && Accepted(first, objs[i]) => Keyed(CompositeKey(objs[i].value).value, objs[i].value))
  }

  /** The entries the inner loop adds for one object, field by field. */
  function FieldEntries(hash: string, o: Record, fields: seq<FieldDecl>): map<string, Scalar>
  {
    if fields == [] then map[]
    else
      var last := fields[|fields| - 1];
      FieldEntries(hash, o, fields[..|fields| - 1])[FieldKey(hash, last.name) := Get(o, last.name)]
  }

  /** One object's entries: one hash field per declared field, holding that
      field's value. */
  lemma {:induction false} FieldEntriesContents(hash: string, o: Record, fields: seq<FieldDecl>)
    ensures forall k :: k in FieldEntries(hash, o, fields) <==>
      exists j :: 0 <= j < |fields| && k == FieldKey(hash, fields[j].name)
    ensures forall j :: 0 <= j < |fields| ==>
      FieldEntries(hash, o, fields)[FieldKey(hash, fields[j].name)] == Get(o, fields[j].name)
    decreases |fields|
  {
    if fields != [] {
      var init := fields[..|fields| - 1];
      FieldEntriesContents(hash, o, init);
      var last := fields[|fields| - 1];
      forall j | 0 <= j < |fields|
        ensures FieldEntries(hash, o, fields)[FieldKey(hash, fields[j].name)] == Get(o, fields[j].name)
      {
        if j < |init| && fields[j].name != last.name {
          assert fields[j] == init[j];
          assert FieldKey(hash, fields[j].name)[|hash| + 1..] == fields[j].name;
          assert FieldKey(hash, last.name)[|hash| + 1..] == last.name;
        }
      }
      forall k
        ensures k in FieldEntries(hash, o, fields) <==> exists j :: 0 <= j < |fields| && k == FieldKey(hash, fields[j].name)
      {
        if exists j :: 0 <= j < |init| && k == FieldKey(hash, init[j].name) {
          var j :| 0 <= j < |init| && k == FieldKey(hash, init[j].name);
          assert fields[j] == init[j];
        }
        if exists j :: 0 <= j < |fields| && k == FieldKey(hash, fields[j].name) {
          var j :| 0 <= j < |fields| && k == FieldKey(hash, fields[j].name);
          if j < |init| {
            assert fields[j] == init[j];
          }
        }
      }
    }
  }

  /** The map built from a run of keyed objects of class `cls`: each object's
      entries in turn (a later object overwrites an earlier one with the same
      composite key), then `@class`. */
  function Written(cls: Schema, ks: seq<Keyed>): map<string, Scalar>
  {
    if ks == [] then map[]
    else
      var last := ks[|ks| - 1];
      (Written(cls, ks[..|ks| - 1]) + FieldEntries(last.hash, last.obj, cls.fields))
        [CLASS_FIELD := Str(cls.className)]
  }

  /** The request `putClass` hands to `HMSET`: the collection key and the
      field map. */
  datatype HashWrite = HashWrite(key: string, fields: map<string, Scalar>)

  /** The `HMSET` request `putClass(key, values)` issues, or the exception
      its `Mono` fails with before issuing one. The class is taken from the
      first object; the accumulation stops silently at the first rejected
      object and what was gathered before it is still requested. The field map
      may be empty; what the Redis call then does is outside the model. */
  ghost function PutClassRequest(key: Option<string>, values: seq<Option<Record>>): Result<HashWrite>
  {
    var clazz := FirstClass(values);
    var fields :=
      if clazz.None? then map[]
      else Written(clazz.value, KeyedRun(clazz.value, values[..AcceptedCount(clazz.value, values)]));
    match GetKey(key, clazz)
    case Err(e) => Err(e)
    case Ok(k) => Ok(HashWrite(k, fields))
  }

  /** `putClass(key, values)`: gathers the field map, then resolves the
      collection key from the explicit key or the first object's class. */
  method PutClass(key: Option<string>, values: seq<Option<Record>>) returns (r: Result<HashWrite>)
    ensures r == PutClassRequest(key, values)
  {
    var m, clazz := Gather(values);
    var target := GetKey(key, clazz);
    if target.Err? {
      return Err(target.error);
    }
    return Ok(HashWrite(target.value, m));
  }

  /** The loop of `putClass`: fills a `HashMap` object by object and field by
      field, taking the class from the first object; an exception (a null
      element included) ends the loop and is swallowed, and the map gathered
      so far is kept. */
  method Gather(values: seq<Option<Record>>) returns (m: map<string, Scalar>, clazz: Option<Schema>)
    ensures clazz == FirstClass(values)
    ensures clazz.None? ==> m == map[]
    ensures clazz.Some? ==> m == Written(clazz.value, KeyedRun(clazz.value, values[..AcceptedCount(clazz.value, values)]))
  {
    m := map[];
    clazz := None;
    if values == [] {
      return;
    }
    ghost var first := if values[0].Some? then values[0].value.schema else Schema("", [], None);
    var i := 0;
    while i < |values|
      invariant 0 <= i <= |values|
      invariant clazz == if i == 0 then None else Some(first)
      invariant i > 0 ==> values[0].Some?
      invariant forall j :: 0 <= j < i ==> Accepted(first, values[j])
      invariant m == Written(first, KeyedRun(first, values[..i]))
    {
      var o := values[i];
      if clazz.None? {
        if o.None? {
          break;
        }
        clazz := Some(o.value.schema);
      }
      if o.None? {
        break;
      }
      var hash := GetHashKeyPre(o.value);
      if hash.Err? || o.value.schema != clazz.value {
        break;
      }
      m := AddFields(m, hash.value, o.value, clazz.value.fields);
      m := m[CLASS_FIELD := Str(clazz.value.className)];
      WrittenStep(first, values, i);
      i := i + 1;
    }
    AcceptedCountIs(first, values, i);
  }

  /** The inner loop of `putClass`: puts `compositeKey:fieldName -> value`
      for every declared field of `o`, in declaration order. */
  method AddFields(m0: map<string, Scalar>, hash: string, o: Record, fields: seq<FieldDecl>)
    returns (m: map<string, Scalar>)
    ensures m == m0 + FieldEntries(hash, o, fields)
  {
    m := m0;
    var j := 0;
    while j < |fields|
      invariant 0 <= j <= |fields|
      invariant m == m0 + FieldEntries(hash, o, fields[..j])
    {
      assert fields[..j + 1][..j] == fields[..j];
      m := m[FieldKey(hash, fields[j].name) := Get(o, fields[j].name)];
      j := j + 1;
    }
    assert fields[..j] == fields;
  }

  /** One more accepted object extends the written map by its entries and
      `@class`. */
  lemma WrittenStep(first: Schema, objs: seq<Option<Record>>, i: nat)
    requires i < |objs|
    requires forall j :: 0 <= j <= i ==> Accepted(first, objs[j])
    ensures Written(first, KeyedRun(first, objs[..i + 1])) ==
      (Written(first, KeyedRun(first, objs[..i])) + FieldEntries(CompositeKey(objs[i].value).value, objs[i].value, first.fields))
        [CLASS_FIELD := Str(first.className)]
  {
    var ks := KeyedRun(first, objs[..i + 1]);
    assert ks[..i] == KeyedRun(first, objs[..i]);
  }

  /** The written map has `@class` (naming the class) as soon as one object
      was accepted. */
  lemma WrittenClassField(cls: Schema, ks: seq<Keyed>)
    requires ks != []
    ensures CLASS_FIELD in Written(cls, ks)
    ensures Written(cls, ks)[CLASS_FIELD] == Str(cls.className)
  {
  }

  /** `k` is the hash field of some declared field of some keyed object. */
  ghost predicate StoresField(cls: Schema, ks: seq<Keyed>, k: string)
  {
    exists i, j :: 0 <= i < |ks| && 0 <= j < |cls.fields| && k == FieldKey(ks[i].hash, cls.fields[j].name)
  }

  /** The fields stored for a run and one more object: those of the run and
      those of the object. */
  lemma StoresFieldSnoc(cls: Schema, ks: seq<Keyed>, k: string)
    requires ks != []
    ensures StoresField(cls, ks, k) <==>
      StoresField(cls, ks[..|ks| - 1], k) || k in FieldEntries(ks[|ks| - 1].hash, ks[|ks| - 1].obj, cls.fields)
  {
    var init, last := ks[..|ks| - 1], ks[|ks| - 1];
    FieldEntriesContents(last.hash, last.obj, cls.fields);
    if StoresField(cls, init, k) {
      var i, j :| 0 <= i < |init| && 0 <= j < |cls.fields| && k == FieldKey(init[i].hash, cls.fields[j].name);
      assert ks[i] == init[i];
    }
    if k in FieldEntries(last.hash, last.obj, cls.fields) {
      var j :| 0 <= j < |cls.fields| && k == FieldKey(last.hash, cls.fields[j].name);
      assert ks[|ks| - 1] == last;
    }
    if StoresField(cls, ks, k) {
      var i, j :| 0 <= i < |ks| && 0 <= j < |cls.fields| && k == FieldKey(ks[i].hash, cls.fields[j].name);
      if i < |init| {
        assert ks[i] == init[i];
      }
    }
  }

  /** The written map holds `@class` and one field per (object, declared
      field), and nothing else. */
  lemma {:induction false} WrittenKeys(cls: Schema, ks: seq<Keyed>)
    ensures forall k :: k in Written(cls, ks) <==> (ks != [] && k == CLASS_FIELD) || StoresField(cls, ks, k)
    decreases |ks|
  {
    if ks != [] {
      WrittenKeys(cls, ks[..|ks| - 1]);
      forall k
        ensures k in Written(cls, ks) <==> k == CLASS_FIELD || StoresField(cls, ks, k)
      {
        StoresFieldSnoc(cls, ks, k);
      }
    }
  }

  /** Each field of an object is stored with its value unless a later object
      with the same composite key overwrote it. */
  lemma {:induction false} WrittenLastWins(cls: Schema, ks: seq<Keyed>, i: nat, j: nat)
    requires WellFormed(cls)
    requires i < |ks| && j < |cls.fields|
    requires forall t :: i < t < |ks| ==> ks[t].hash != ks[i].hash
    ensures FieldKey(ks[i].hash, cls.fields[j].name) in Written(cls, ks)
    ensures Written(cls, ks)[FieldKey(ks[i].hash, cls.fields[j].name)] == Get(ks[i].obj, cls.fields[j].name)
    decreases |ks|
  {
    var init := ks[..|ks| - 1];
    var last := ks[|ks| - 1];
    var k := FieldKey(ks[i].hash, cls.fields[j].name);
    FieldEntriesContents(last.hash, last.obj, cls.fields);
    assert k != CLASS_FIELD by {
      assert k[|ks[i].hash|] == ':';
    }
    if i < |ks| - 1 {
      assert ks[i] == init[i];
      WrittenLastWins(cls, init, i, j);
      if k in FieldEntries(last.hash, last.obj, cls.fields) {
        var j' :| 0 <= j' < |cls.fields| && k == FieldKey(last.hash, cls.fields[j'].name);
        FieldKeyInjective(ks[i].hash, cls.fields[j].name, last.hash, cls.fields[j'].name);
        assert false;
      }
    }
  }

  /** An explicit collection key is always the write's target, whatever the
      objects; without one the first object's `@RedisKey` value is used, and
      an empty collection or a null first element fails the class assertion. */
  lemma PutClassTarget(key: Option<string>, values: seq<Option<Record>>)
    ensures key.Some? ==> PutClassRequest(key, values).Ok? && PutClassRequest(key, values).value.key == key.value
    ensures key.None? && (values == [] || values[0].None?) ==> PutClassRequest(key, values) == Err(ClassNull)
    ensures key.None? && values != [] && values[0].Some? ==>
      match values[0].value.schema.redisKey
      case None => PutClassRequest(key, values) == Err(NullPointer)
      case Some(k) => PutClassRequest(key, values).Ok? && PutClassRequest(key, values).value.key == k
  {
  }

  /** Objects after a rejected one contribute nothing: the request equals the
      one for the objects before it, and is still issued. */
  lemma PutClassStopsAtRejected(key: Option<string>, values: seq<Option<Record>>, k: nat)
    requires 0 < k < |values| && values[0].Some?
    requires forall i :: 0 <= i < k ==> Accepted(values[0].value.schema, values[i])
    requires !Accepted(values[0].value.schema, values[k])
    ensures PutClassRequest(key, values) == PutClassRequest(key, values[..k])
  {
    var first := values[0].value.schema;
    AcceptedCountIs(first, values, k);
    AcceptedCountIs(first, values[..k], k);
    assert values[..k][..k] == values[..k];
  }

  /** When the first object is rejected nothing is gathered, yet an `HMSET`
      request with an empty field map is still issued under the resolved key. */
  lemma PutClassFirstRejected(key: Option<string>, values: seq<Option<Record>>)
    requires values != [] && values[0].Some? && CompositeKey(values[0].value).Err?
    ensures GetKey(key, Some(values[0].value.schema)).Ok? ==>
      PutClassRequest(key, values) == Ok(HashWrite(GetKey(key, Some(values[0].value.schema)).value, map[]))
  {
  }

  /** A null first element leaves no class: with an explicit key an `HMSET`
      request with an empty field map is issued under it, and without one the
      class assertion fails. */
  lemma PutClassNullFirst(key: Option<string>, values: seq<Option<Record>>)
    requires values != [] && values[0].None?
    ensures PutClassRequest(key, values) == if key.Some? then Ok(HashWrite(key.value, map[])) else Err(ClassNull)
  {
  }
}
