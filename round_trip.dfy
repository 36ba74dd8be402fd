/** Writing with `putClass` and reading back with `getClassDetail`: the hash
    fields a read asks for are the ones the write produced, the flat answer
    splits back into one group per composite key, and the object rebuilt
    from the group agrees with the written one on every requested field. */
module RoundTrip {
  import opened Outcomes
  import opened Records
  import opened CompositeKeys
  import opened HashMapper
  import opened ClassFields
  import opened HashKeys
  import opened Demultiplex
  import opened ClassReader

  /** The hash fields for one carrier: its composite key joined with each
      field name, in field order. */
  function OneCarrierKeys(ck: string, fields: seq<FieldDecl>): (keys: seq<string>)
    ensures |keys| == |fields|
  {
    seq(|fields|, j requires 0 <= j < |fields| => FieldKey(ck, fields[j].name))
  }

  /** With a type hint and a single carrier whose composite key is `ck`, the
      read asks for `ck:name` for every selected field, in field order. */
  lemma {:induction false} KeysForOneCarrier(fields: seq<FieldDecl>, ck: string, text: string)
    ensures KeysFor(fields, [Ok(ck)], text, true) == Ok(OneCarrierKeys(ck, fields))
  {
    if fields != [] {
      var init := fields[..|fields| - 1];
      var last := fields[|fields| - 1];
      KeysForOneCarrier(init, ck, text);
      assert KeysUpTo(last.name, [Ok(ck)], text, true, 0) == Ok([]);
      assert KeysUpTo(last.name, [Ok(ck)], text, true, 1) == Ok([] + [FieldKey(ck, last.name)]);
      assert KeysFor(fields, [Ok(ck)], text, true) == Ok(OneCarrierKeys(ck, init) + ([] + [FieldKey(ck, last.name)]));
      assert OneCarrierKeys(ck, fields) == OneCarrierKeys(ck, init) + [FieldKey(ck, last.name)];
      assert [] + [FieldKey(ck, last.name)] == [FieldKey(ck, last.name)];
    } else {
      assert OneCarrierKeys(ck, fields) == [];
    }
  }

  /** Every asked key reads back as the carrier's composite key and the field
      name it was built from. */
  lemma OneCarrierSplits(ck: string, fields: seq<FieldDecl>)
    requires GoodNames(fields)
    ensures forall j :: 0 <= j < |fields| ==> SplitFieldKey(OneCarrierKeys(ck, fields)[j]) == Ok((ck, fields[j].name))
  {
    forall j | 0 <= j < |fields|
      ensures SplitFieldKey(OneCarrierKeys(ck, fields)[j]) == Ok((ck, fields[j].name))
    {
      SplitFieldKeyRoundTrip(ck, fields[j].name);
    }
  }

  /** The answer for one carrier can always be split. */
  lemma OneCarrierDemuxOk(ck: string, fields: seq<FieldDecl>, values: seq<Scalar>)
    requires GoodNames(fields) && |values| == |fields|
    ensures Demux(OneCarrierKeys(ck, fields), values).Ok?
  {
    OneCarrierSplits(ck, fields);
    DemuxOk(OneCarrierKeys(ck, fields), values);
  }

  /** It splits into a single group, under the carrier's composite key (none
      when no field is asked for). */
  lemma OneCarrierGroup(ck: string, fields: seq<FieldDecl>, values: seq<Scalar>, h: string)
    requires GoodNames(fields) && |values| == |fields|
    requires Demux(OneCarrierKeys(ck, fields), values).Ok?
    ensures h in Demux(OneCarrierKeys(ck, fields), values).value <==> fields != [] && h == ck
  {
    OneCarrierSplits(ck, fields);
    DemuxGroups(OneCarrierKeys(ck, fields), values, h);
    if fields != [] && h == ck {
      assert SplitFieldKey(OneCarrierKeys(ck, fields)[0]).value.0 == ck;
    }
  }

  /** The group holds exactly the asked field names. */
  lemma OneCarrierNames(ck: string, fields: seq<FieldDecl>, values: seq<Scalar>, n: string)
    requires GoodNames(fields) && |values| == |fields|
    requires Demux(OneCarrierKeys(ck, fields), values).Ok?
    requires ck in Demux(OneCarrierKeys(ck, fields), values).value
    ensures n in Demux(OneCarrierKeys(ck, fields), values).value[ck] <==> exists j :: 0 <= j < |fields| && fields[j].name == n
  {
    OneCarrierSplits(ck, fields);
    DemuxFields(OneCarrierKeys(ck, fields), values, ck, n);
    if exists j :: 0 <= j < |fields| && fields[j].name == n {
      var j :| 0 <= j < |fields| && fields[j].name == n;
      assert SplitFieldKey(OneCarrierKeys(ck, fields)[j]) == Ok((ck, n));
    }
  }

  /** Each asked field holds the value fetched for it. */
  lemma OneCarrierValue(ck: string, fields: seq<FieldDecl>, values: seq<Scalar>, j: nat)
    requires GoodNames(fields) && |values| == |fields| && j < |fields|
    requires Demux(OneCarrierKeys(ck, fields), values).Ok?
    ensures var groups := Demux(OneCarrierKeys(ck, fields), values).value;
      ck in groups && fields[j].name in groups[ck] && groups[ck][fields[j].name] == values[j]
  {
    var keys := OneCarrierKeys(ck, fields);
    OneCarrierSplits(ck, fields);
    forall t | j < t < |keys|
      ensures SplitFieldKey(keys[t]) != SplitFieldKey(keys[j])
    {
      assert fields[t].name != fields[j].name;
    }
    DemuxLastWins(keys, values, j);
  }

  /** `putClass` over a run of accepted objects writes the map built from
      the whole run. */
  lemma StoredRun(key: Option<string>, values: seq<Option<Record>>)
    requires values != [] && values[0].Some?
    requires forall j :: 0 <= j < |values| ==> Accepted(values[0].value.schema, values[j])
    requires PutClassRequest(key, values).Ok?
    ensures PutClassRequest(key, values).value.fields == Written(values[0].value.schema, KeyedRun(values[0].value.schema, values))
  {
    AcceptedCountIs(values[0].value.schema, values, |values|);
    assert values[..|values|] == values;
  }

  /** `hash` holds every field of `m` with `m`'s value (and possibly more). */
  ghost predicate Holds(hash: map<string, Scalar>, m: map<string, Scalar>)
  {
    forall x :: x in m ==> x in hash && hash[x] == m[x]
  }

  /** The store after `HMSET w.key w.fields`: the given fields are set, and
      every other field of that hash and every other hash are kept. */
  function HMSet(store: map<string, map<string, Scalar>>, w: HashWrite): (r: map<string, map<string, Scalar>>)
    ensures Holds(HashAt(r, w.key), w.fields)
    ensures forall x :: x in HashAt(store, w.key) && x !in w.fields ==>
      x in HashAt(r, w.key) && HashAt(r, w.key)[x] == HashAt(store, w.key)[x]
    ensures forall k :: k != w.key ==> HashAt(r, k) == HashAt(store, k)
  {
    store[w.key := HashAt(store, w.key) + w.fields]
  }

  /** A later `HMSET` keeps what a hash holds unless it writes one of those
      fields with a different value: writes accumulate. */
  lemma HMSetKeeps(store: map<string, map<string, Scalar>>, w: HashWrite, k: string, m: map<string, Scalar>)
    requires Holds(HashAt(store, k), m)
    requires w.key == k ==> forall x :: x in m && x in w.fields ==> w.fields[x] == m[x]
    ensures Holds(HashAt(HMSet(store, w), k), m)
  {
    var r := HMSet(store, w);
    if w.key == k {
      forall x | x in m
        ensures x in HashAt(r, k) && HashAt(r, k)[x] == m[x]
      {
        if x in w.fields {
          assert HashAt(r, k)[x] == w.fields[x];
        }
      }
    }
  }

  /** Reading a hash that holds `Written(c, ks)` for the fields `sel` of the
      object at position `i` gives that object's values, provided no later
      object shares its composite key: every asked field was written. */
  lemma FetchWritten(c: Schema, ks: seq<Keyed>, i: nat, sel: seq<FieldDecl>, hash: map<string, Scalar>)
    requires WellFormed(c)
    requires i < |ks|
    requires forall t :: i < t < |ks| ==> ks[t].hash != ks[i].hash
    requires forall f :: f in sel ==> f in c.fields
    requires Holds(hash, Written(c, ks))
    ensures Fetch(hash, OneCarrierKeys(ks[i].hash, sel)) == Fetch(Written(c, ks), OneCarrierKeys(ks[i].hash, sel))
    ensures forall j :: 0 <= j < |sel| ==>
      Fetch(Written(c, ks), OneCarrierKeys(ks[i].hash, sel))[j] == Get(ks[i].obj, sel[j].name)
  {
    var keys := OneCarrierKeys(ks[i].hash, sel);
    forall j | 0 <= j < |sel|
      ensures keys[j] in Written(c, ks) && Written(c, ks)[keys[j]] == Get(ks[i].obj, sel[j].name)
    {
      assert sel[j] in c.fields;
      var p :| 0 <= p < |c.fields| && c.fields[p] == sel[j];
      WrittenLastWins(c, ks, i, p);
    }
  }

  /** A read with a type hint and one record as the carrier asks for the
      record's composite key joined with each selected field. */
  lemma ReadOneRecord(k: string, o: Record, text: string, c: Schema, columns: seq<string>,
                      store: map<string, map<string, Scalar>>, registry: map<string, Schema>)
    requires CompositeKey(o).Ok?
    ensures var keys := OneCarrierKeys(CompositeKey(o).value, Selected(c.fields, columns));
      ReadGroups(k, [Rec(o, text)], Some(c), columns, store, registry) ==
        match Demux(keys, Fetch(HashAt(store, k), keys))
        case Err(e) => Err(e)
        case Ok(groups) => Ok(Some(Loaded(c, groups)))
  {
    var ck := CompositeKey(o).value;
    assert CarrierKeys([Rec(o, text)]) == [Ok(ck)];
    KeysForOneCarrier(Selected(c.fields, columns), ck, CollectionText([Rec(o, text)]));
  }

  /** The round trip over a stored hash. When the hash under `k` holds the
      map written for the run `ks` of objects of class `c` (other writes may
      have added fields beside it), reading the object at
      position `i` back by itself with `c` as the hint succeeds and yields
      exactly one object, which holds the written value of every requested field and null
      in every other field; when no declared field is requested nothing comes
      back. No later object of the run may share its composite key. */
  lemma ReadBackStored(k: string, c: Schema, ks: seq<Keyed>, i: nat, text: string, columns: seq<string>,
                       store: map<string, map<string, Scalar>>, registry: map<string, Schema>,
                       order: seq<string>, hvs: seq<Record>)
    requires WellFormed(c)
    requires i < |ks| && CompositeKey(ks[i].obj) == Ok(ks[i].hash)
    requires forall t :: i < t < |ks| ==> ks[t].hash != ks[i].hash
    requires Holds(HashAt(store, k), Written(c, ks))
    requires var read := ReadGroups(k, [Rec(ks[i].obj, text)], Some(c), columns, store, registry);
      read.Ok? && read.value.Some? ==> Lists(read.value.value.clazz, read.value.value.groups, order, hvs)
    ensures var read := ReadGroups(k, [Rec(ks[i].obj, text)], Some(c), columns, store, registry);
      && read.Ok? && read.value.Some? && read.value.value.clazz == c
      && read.value.value.groups.Keys == if Selected(c.fields, columns) == [] then {} else {ks[i].hash}
    ensures Selected(c.fields, columns) == [] ==> hvs == []
    ensures Selected(c.fields, columns) != [] ==>
      && |hvs| == 1
      && hvs[0].schema == c
      && forall f :: f in c.fields ==> Get(hvs[0], f.name) == if Wanted(columns, f) then Get(ks[i].obj, f.name) else Null
  {
    var ck := ks[i].hash;
    var sel := Selected(c.fields, columns);
    var keys := OneCarrierKeys(ck, sel);
    var fetched := Fetch(Written(c, ks), keys);
    ReadOneRecord(k, ks[i].obj, text, c, columns, store, registry);
    SelectedWellFormed(c, columns);
    SelectedContents(c.fields, columns);
    FetchWritten(c, ks, i, sel, HashAt(store, k));
    OneCarrierDemuxOk(ck, sel, fetched);
    var groups := Demux(keys, fetched).value;
    assert ReadGroups(k, [Rec(ks[i].obj, text)], Some(c), columns, store, registry) == Ok(Some(Loaded(c, groups)));
    forall h
      ensures h in groups <==> sel != [] && h == ck
    {
      OneCarrierGroup(ck, sel, fetched, h);
    }
    if sel == [] {
      assert groups.Keys == {};
      return;
    }
    assert groups.Keys == {ck} by {
      assert ck in groups;
    }
    assert order[0] in groups;
    ReadBackFields(c, ks, i, columns, groups, hvs[0]);
  }

  /** The single object read back agrees with the written one on the
      requested fields and is null elsewhere. */
  lemma ReadBackFields(c: Schema, ks: seq<Keyed>, i: nat, columns: seq<string>, groups: Groups, rebuilt: Record)
    requires WellFormed(c)
    requires i < |ks|
    requires forall t :: i < t < |ks| ==> ks[t].hash != ks[i].hash
    requires Selected(c.fields, columns) != []
    requires var keys := OneCarrierKeys(ks[i].hash, Selected(c.fields, columns));
      Demux(keys, Fetch(Written(c, ks), keys)) == Ok(groups)
    requires ks[i].hash in groups && rebuilt == Rebuild(c, groups[ks[i].hash])
    ensures rebuilt.schema == c
    ensures forall f :: f in c.fields ==> Get(rebuilt, f.name) == if Wanted(columns, f) then Get(ks[i].obj, f.name) else Null
  {
    RebuildFields(c, groups[ks[i].hash], "");
    forall f | f in c.fields
      ensures Get(rebuilt, f.name) == if Wanted(columns, f) then Get(ks[i].obj, f.name) else Null
    {
      ReadBackField(c, ks, i, columns, groups, f);
    }
  }

  /** One declared field of the object read back: the written value when it
      was requested, null otherwise. */
  lemma ReadBackField(c: Schema, ks: seq<Keyed>, i: nat, columns: seq<string>, groups: Groups, f: FieldDecl)
    requires WellFormed(c)
    requires i < |ks|
    requires forall t :: i < t < |ks| ==> ks[t].hash != ks[i].hash
    requires var keys := OneCarrierKeys(ks[i].hash, Selected(c.fields, columns));
      Demux(keys, Fetch(Written(c, ks), keys)) == Ok(groups)
    requires ks[i].hash in groups && f in c.fields
    ensures Get(Rebuild(c, groups[ks[i].hash]), f.name) == if Wanted(columns, f) then Get(ks[i].obj, f.name) else Null
  {
    var ck := ks[i].hash;
    var sel := Selected(c.fields, columns);
    var fetched := Fetch(Written(c, ks), OneCarrierKeys(ck, sel));
    SelectedWellFormed(c, columns);
    RebuildFields(c, groups[ck], f.name);
    assert f.name in Names(c.fields);
    if Wanted(columns, f) {
      SelectedContents(c.fields, columns);
      var j :| 0 <= j < |sel| && sel[j] == f;
      FetchWritten(c, ks, i, sel, Written(c, ks));
      RequestedField(ck, sel, fetched, groups, j);
    } else {
      UnrequestedName(c, columns, f);
      OtherField(ck, sel, fetched, groups, f.name);
    }
  }

  /** In a well-formed class, no selected field carries the name of a
      declared field the filter leaves out. */
  lemma UnrequestedName(c: Schema, columns: seq<string>, f: FieldDecl)
    requires WellFormed(c) && f in c.fields && !Wanted(columns, f)
    ensures forall j :: 0 <= j < |Selected(c.fields, columns)| ==> Selected(c.fields, columns)[j].name != f.name
  {
    var sel := Selected(c.fields, columns);
    SelectedContents(c.fields, columns);
    forall j | 0 <= j < |sel|
      ensures sel[j].name != f.name
    {
      assert sel[j] in sel;
      var p :| 0 <= p < |c.fields| && c.fields[p] == f;
      var q :| 0 <= q < |c.fields| && c.fields[q] == sel[j];
      assert p != q;
    }
  }

  /** A requested field of the group holds the value fetched for it. */
  lemma RequestedField(ck: string, sel: seq<FieldDecl>, fetched: seq<Scalar>, groups: Groups, j: nat)
    requires GoodNames(sel) && |fetched| == |sel| && j < |sel|
    requires Demux(OneCarrierKeys(ck, sel), fetched) == Ok(groups)
    ensures ck in groups && sel[j].name in groups[ck] && groups[ck][sel[j].name] == fetched[j]
  {
    OneCarrierValue(ck, sel, fetched, j);
  }

  /** A name no requested field carries is absent from the group. */
  lemma OtherField(ck: string, sel: seq<FieldDecl>, fetched: seq<Scalar>, groups: Groups, n: string)
    requires GoodNames(sel) && |fetched| == |sel|
    requires Demux(OneCarrierKeys(ck, sel), fetched) == Ok(groups)
    requires ck in groups
    requires forall j :: 0 <= j < |sel| ==> sel[j].name != n
    ensures n !in groups[ck]
  {
    OneCarrierNames(ck, sel, fetched, n);
  }

  /** Two elements that are both objects with the same composite key. */
  ghost predicate SameKey(a: Option<Record>, b: Option<Record>)
  {
    a.Some? && b.Some? && CompositeKey(a.value) == CompositeKey(b.value)
  }

  /** The headline round trip from `putClass`: after `putClass(key, values)`
      has stored a run of accepted objects of one well-formed class with
      `HMSET` (which adds to whatever the collection already holds), reading
      the object at position `i` back by itself, with its class as the hint,
      succeeds and yields one object holding the written value of every requested field
      and null in every other field, provided no later object shares its
      composite key. */
  lemma ReadBack(key: Option<string>, values: seq<Option<Record>>, i: nat, text: string, columns: seq<string>,
                 store: map<string, map<string, Scalar>>, registry: map<string, Schema>,
                 order: seq<string>, hvs: seq<Record>)
    requires i < |values| && values[0].Some?
    requires WellFormed(values[0].value.schema)
    requires forall j :: 0 <= j < |values| ==> Accepted(values[0].value.schema, values[j])
    requires forall t :: i < t < |values| ==> !SameKey(values[t], values[i])
    requires PutClassRequest(key, values).Ok?
    requires var w := PutClassRequest(key, values).value;
      var read := ReadGroups(w.key, [Rec(values[i].value, text)], Some(values[0].value.schema), columns, HMSet(store, w), registry);
      read.Ok? && read.value.Some? ==> Lists(read.value.value.clazz, read.value.value.groups, order, hvs)
    ensures var w := PutClassRequest(key, values).value;
      var read := ReadGroups(w.key, [Rec(values[i].value, text)], Some(values[0].value.schema), columns, HMSet(store, w), registry);
      && read.Ok? && read.value.Some? && read.value.value.clazz == values[0].value.schema
      && read.value.value.groups.Keys == if Selected(values[0].value.schema.fields, columns) == [] then {} else {CompositeKey(values[i].value).value}
    ensures Selected(values[0].value.schema.fields, columns) == [] ==> hvs == []
    ensures Selected(values[0].value.schema.fields, columns) != [] ==>
      && |hvs| == 1
      && hvs[0].schema == values[0].value.schema
      && forall f :: f in values[0].value.schema.fields ==>
           Get(hvs[0], f.name) == if Wanted(columns, f) then Get(values[i].value, f.name) else Null
  {
    var w := PutClassRequest(key, values).value;
    var c := values[0].value.schema;
    var ks := KeyedRun(c, values);
    StoredRun(key, values);
    var store' := HMSet(store, w);
    forall t | i < t < |ks|
      ensures ks[t].hash != ks[i].hash
    {
      assert CompositeKey(values[t].value) == Ok(ks[t].hash);
    }
    ReadBackStored(w.key, c, ks, i, text, columns, store', registry, order, hvs);
    assert CompositeKey(values[i].value) == Ok(ks[i].hash);
  }
}
