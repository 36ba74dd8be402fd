/** The composite key of a record (`getHashKeyPre`): the values of its
    primary-key fields, taken in ascending order of field name, rendered with
    `toString` and joined with ":". */
module CompositeKeys {
  import opened Outcomes
  import opened JavaText
  import opened StringOrder
  import opened Records

  /** The map `keyMap` that the source fills while scanning `fields` in
      declaration order: primary-key field name to value. */
  function KeyMapOf(r: Record, fields: seq<FieldDecl>): map<string, Scalar>
  {
    if fields == [] then map[]
    else
      var last := fields[|fields| - 1];
      var m := KeyMapOf(r, fields[..|fields| - 1]);
      if last.primary then m[last.name := Get(r, last.name)] else m
  }

  /** `n` names a primary-key field among `fields`. */
  ghost predicate IsPrimaryIn(fields: seq<FieldDecl>, n: string)
  {
    exists i :: 0 <= i < |fields| && fields[i].primary && fields[i].name == n
  }

  /** `keyMap` holds exactly the primary-key field names, each with the
      record's value for it. */
  lemma {:induction false} KeyMapOfContents(r: Record, fields: seq<FieldDecl>)
    ensures forall n :: n in KeyMapOf(r, fields) <==> IsPrimaryIn(fields, n)
    ensures forall n :: n in KeyMapOf(r, fields) ==> KeyMapOf(r, fields) [n] == Get(r, n)
    decreases |fields|
  {
    if fields != [] {
      var init := fields[..|fields| - 1];
      KeyMapOfContents(r, init);
      forall n
        ensures n in KeyMapOf(r, fields) <==> IsPrimaryIn(fields, n)
      {
        if IsPrimaryIn(init, n) {
          var i :| 0 <= i < |init| && init[i].primary && init[i].name == n;
          assert fields[i] == init[i];
        }
        if IsPrimaryIn(fields, n) {
          var i :| 0 <= i < |fields| && fields[i].primary && fields[i].name == n;
          if i < |init| {
            assert IsPrimaryIn(init, n);
          }
        }
      }
    }
  }

  /** The primary-key values joined in the order of `names`. */
  function JoinValues(m: map<string, Scalar>, names: seq<string>): string
    requires forall i :: 0 <= i < |names| ==> names[i] in m
  {
    Join(seq(|names|, i requires 0 <= i < |names| => Render(m[names[i]])), ":")
  }

  /** Some primary-key field of the record holds null. */
  ghost predicate HasNullPrimaryKey(r: Record)
  {
    exists i :: 0 <= i < |r.schema.fields| && r.schema.fields[i].primary && Get(r, r.schema.fields[i].name) == Null
  }

  /** The composite key of a record, or the assertion that fails: a null
      primary-key value, or a class without any primary-key field. */
  ghost function CompositeKey(r: Record): Result<string>
  {
    var keyMap := KeyMapOf(r, r.schema.fields);
    if HasNullPrimaryKey(r) then Err(PrimaryKeyNull)
    else if keyMap == map[] then Err(NoPrimaryKey)
    else Ok(JoinValues(keyMap, SortSet(keyMap.Keys)))
  }

  /** `getHashKeyPre`: scans the declared fields, collecting the primary-key
      values and failing on the first null one, then sorts the entries by
      field name and joins the rendered values with ":". */
  method GetHashKeyPre(r: Record) returns (res: Result<string>)
    ensures res == CompositeKey(r)
  {
    var fields := r.schema.fields;
    var keyMap: map<string, Scalar> := map[];
    var i := 0;
    while i < |fields|
      invariant 0 <= i <= |fields|
      invariant keyMap == KeyMapOf(r, fields[..i])
      invariant forall j :: 0 <= j < i && fields[j].primary ==> Get(r, fields[j].name) != Null
    {
      assert fields[..i + 1][..i] == fields[..i];
      if fields[i].primary {
        var value := Get(r, fields[i].name);
        if value == Null {
          return Err(PrimaryKeyNull);
        }
        keyMap := keyMap[fields[i].name := value];
      }
      i := i + 1;
    }
    assert fields[..i] == fields;
    if keyMap == map[] {
      return Err(NoPrimaryKey);
    }
    var names := SortedKeys(keyMap.Keys);
    return Ok(JoinValues(keyMap, names));
  }

  /** The names of the primary-key fields of a class. */
  ghost predicate IsPrimaryName(s: Schema, n: string)
  {
    IsPrimaryIn(s.fields, n)
  }

  /** A composite key is the rendered primary-key values listed in ascending
      order of field name: any ascending listing of the primary-key names
      yields it. */
  lemma CompositeKeyIsAscendingJoin(r: Record, names: seq<string>)
    requires !HasNullPrimaryKey(r)
    requires Ascending(names) && names != []
    requires forall n :: n in names <==> IsPrimaryName(r.schema, n)
    ensures CompositeKey(r) == Ok(Join(seq(|names|, i requires 0 <= i < |names| => Render(Get(r, names[i]))), ":"))
  {
    var keyMap := KeyMapOf(r, r.schema.fields);
    KeyMapOfContents(r, r.schema.fields);
    assert names[0] in names;
    assert names[0] in keyMap;
    var sorted := SortSet(keyMap.Keys);
    forall x
      ensures x in sorted <==> x in names
    {
      if x in keyMap.Keys {
        SortSetComplete(keyMap.Keys, x);
      }
    }
    AscendingUnique(sorted, names);
    assert seq(|names|, i requires 0 <= i < |names| => Render(keyMap[names[i]]))
        == seq(|names|, i requires 0 <= i < |names| => Render(Get(r, names[i])));
  }

  /** The key fails exactly when a primary-key value is null or the class has
      no primary-key field, and the null check comes first. */
  lemma CompositeKeyFails(r: Record)
    ensures CompositeKey(r).Err? <==> HasNullPrimaryKey(r) || forall n :: !IsPrimaryName(r.schema, n)
    ensures HasNullPrimaryKey(r) ==> CompositeKey(r) == Err(PrimaryKeyNull)
    ensures CompositeKey(r) == Err(NoPrimaryKey) <==> !HasNullPrimaryKey(r) && forall n :: !IsPrimaryName(r.schema, n)
  {
    KeyMapOfContents(r, r.schema.fields);
    var keyMap := KeyMapOf(r, r.schema.fields);
    if exists n :: IsPrimaryName(r.schema, n) {
      var n :| IsPrimaryName(r.schema, n);
      assert n in keyMap;
    }
    if keyMap != map[] {
      var n :| n in keyMap;
      assert IsPrimaryName(r.schema, n);
    }
  }

  /** Reordering the field declarations does not change the composite key. */
  lemma CompositeKeyDeclarationOrder(r: Record, reordered: seq<FieldDecl>)
    requires multiset(reordered) == multiset(r.schema.fields)
    ensures CompositeKey(Record(r.schema.(fields := reordered), r.values)) == CompositeKey(r)
  {
    var r' := Record(r.schema.(fields := reordered), r.values);
    KeyMapOfContents(r, r.schema.fields);
    KeyMapOfContents(r', reordered);
    var m, m' := KeyMapOf(r, r.schema.fields), KeyMapOf(r', reordered);
    forall n
      ensures n in m <==> n in m'
    {
      if exists i :: 0 <= i < |reordered| && reordered[i].primary && reordered[i].name == n {
        var i :| 0 <= i < |reordered| && reordered[i].primary && reordered[i].name == n;
        assert reordered[i] in multiset(r.schema.fields);
        var j :| 0 <= j < |r.schema.fields| && r.schema.fields[j] == reordered[i];
      }
      if exists j :: 0 <= j < |r.schema.fields| && r.schema.fields[j].primary && r.schema.fields[j].name == n {
        var j :| 0 <= j < |r.schema.fields| && r.schema.fields[j].primary && r.schema.fields[j].name == n;
        assert r.schema.fields[j] in multiset(reordered);
        var i :| 0 <= i < |reordered| && reordered[i] == r.schema.fields[j];
      }
    }
    assert m == m';
    if HasNullPrimaryKey(r) {
      var j :| 0 <= j < |r.schema.fields| && r.schema.fields[j].primary && Get(r, r.schema.fields[j].name) == Null;
      assert r.schema.fields[j] in multiset(reordered);
      var i :| 0 <= i < |reordered| && reordered[i] == r.schema.fields[j];
      assert HasNullPrimaryKey(r');
    }
    if HasNullPrimaryKey(r') {
      var i :| 0 <= i < |reordered| && reordered[i].primary && Get(r', reordered[i].name) == Null;
      assert reordered[i] in multiset(r.schema.fields);
      var j :| 0 <= j < |r.schema.fields| && r.schema.fields[j] == reordered[i];
      assert HasNullPrimaryKey(r);
    }
  }

  /** With a single primary-key field, the composite key is that field's value
      rendered as text. */
  lemma CompositeKeySingle(r: Record, p: string)
    requires forall n :: IsPrimaryName(r.schema, n) <==> n == p
    requires Get(r, p) != Null
    ensures CompositeKey(r) == Ok(Render(Get(r, p)))
  {
    assert IsPrimaryName(r.schema, p);
    if HasNullPrimaryKey(r) {
      var i :| 0 <= i < |r.schema.fields| && r.schema.fields[i].primary && Get(r, r.schema.fields[i].name) == Null;
      assert IsPrimaryName(r.schema, r.schema.fields[i].name);
      assert false;
    }
    CompositeKeyIsAscendingJoin(r, [p]);
  }
}
