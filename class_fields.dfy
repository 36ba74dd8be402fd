/** The field scan of a read (`getClassField`): one pass over the declared
    fields that records the primary-key names and hands every field the
    column filter lets through to the key-building callback. */
module ClassFields {
  import opened Records
  import opened CompositeKeys

  /** The names of the `@RedisPrimaryKey` fields among `fields`, in
      declaration order. */
  function PrimaryNames(fields: seq<FieldDecl>): seq<string>
  {
    if fields == [] then []
    else
      var last := fields[|fields| - 1];
      PrimaryNames(fields[..|fields| - 1]) + (if last.primary then [last.name] else [])
  }

  /** `primaryKey` lists exactly the primary-key field names. */
  lemma {:induction false} PrimaryNamesContents(fields: seq<FieldDecl>)
    ensures forall n :: n in PrimaryNames(fields) <==> IsPrimaryIn(fields, n)
  {
    if fields != [] {
      var init := fields[..|fields| - 1];
      var last := fields[|fields| - 1];
      PrimaryNamesContents(init);
      forall n
        ensures n in PrimaryNames(fields) <==> IsPrimaryIn(fields, n)
      {
        if IsPrimaryIn(init, n) {
          var i :| 0 <= i < |init| && init[i].primary && init[i].name == n;
          assert fields[i] == init[i];
        }
        if IsPrimaryIn(fields, n) && !(last.primary && last.name == n) {
          var i :| 0 <= i < |fields| && fields[i].primary && fields[i].name == n;
          assert init[i] == fields[i];
        }
      }
    }
  }

  /** `primaryKey` keeps declaration order: the names of a concatenation are
      the names of its parts, one after the other. */
  lemma {:induction false} PrimaryNamesAppend(a: seq<FieldDecl>, b: seq<FieldDecl>)
    ensures PrimaryNames(a + b) == PrimaryNames(a) + PrimaryNames(b)
    decreases |b|
  {
    if b != [] {
      var b' := b[..|b| - 1];
      assert (a + b)[..|a + b| - 1] == a + b';
      assert (a + b)[|a + b| - 1] == b[|b| - 1];
      PrimaryNamesAppend(a, b');
    } else {
      assert a + b == a;
    }
  }

  /** The column filter: with no columns requested every field passes,
      otherwise only the requested ones. */
  predicate Wanted(columns: seq<string>, f: FieldDecl)
  {
    |columns| == 0 || f.name in columns
  }

  /** The fields the callback is applied to, in declaration order. */
  function Selected(fields: seq<FieldDecl>, columns: seq<string>): seq<FieldDecl>
  {
    if fields == [] then []
    else
      var last := fields[|fields| - 1];
      Selected(fields[..|fields| - 1], columns) + (if Wanted(columns, last) then [last] else [])
  }

  /** The callback runs on exactly the declared fields the filter lets
      through. */
  lemma {:induction false} SelectedContents(fields: seq<FieldDecl>, columns: seq<string>)
    ensures forall f :: f in Selected(fields, columns) <==> f in fields && Wanted(columns, f)
  {
    if fields != [] {
      var init := fields[..|fields| - 1];
      SelectedContents(init, columns);
      assert fields == init + [fields[|fields| - 1]];
    }
  }

  /** Without requested columns the callback runs on every declared field, in
      declaration order. */
  lemma {:induction false} SelectedAll(fields: seq<FieldDecl>)
    ensures Selected(fields, []) == fields
  {
    if fields != [] {
      var init := fields[..|fields| - 1];
      SelectedAll(init);
      assert fields == init + [fields[|fields| - 1]];
    }
  }

  /** Selecting keeps declaration order: the selection of a concatenation is
      the selections of its parts, one after the other. */
  lemma {:induction false} SelectedAppend(a: seq<FieldDecl>, b: seq<FieldDecl>, columns: seq<string>)
    ensures Selected(a + b, columns) == Selected(a, columns) + Selected(b, columns)
    decreases |b|
  {
    if b != [] {
      var b' := b[..|b| - 1];
      assert (a + b)[..|a + b| - 1] == a + b';
      assert (a + b)[|a + b| - 1] == b[|b| - 1];
      SelectedAppend(a, b', columns);
    } else {
      assert a + b == a;
    }
  }

  /** The selected fields of a well-formed class have distinct, non-empty,
      colon-free names. */
  lemma {:induction false} SelectedWellFormed(s: Schema, columns: seq<string>)
    requires WellFormed(s)
    ensures GoodNames(Selected(s.fields, columns))
  {
    var sel := Selected(s.fields, columns);
    SelectedContents(s.fields, columns);
    forall i, j | 0 <= i < j < |sel|
      ensures sel[i].name != sel[j].name
    {
      SelectedOrder(s.fields, columns, i, j);
    }
    forall i | 0 <= i < |sel|
      ensures sel[i].name != "" && ':' !in sel[i].name
    {
      assert sel[i] in s.fields;
    }
  }

  /** Two distinct positions of the selection come from two distinct
      declared positions, in the same order. */
  lemma {:induction false} SelectedOrder(fields: seq<FieldDecl>, columns: seq<string>, i: nat, j: nat)
    requires i < j < |Selected(fields, columns)|
    ensures exists p, q :: 0 <= p < q < |fields| && Selected(fields, columns)[i] == fields[p] && Selected(fields, columns)[j] == fields[q]
  {
    var init := fields[..|fields| - 1];
    var sel := Selected(fields, columns);
    var selInit := Selected(init, columns);
    if j < |selInit| {
      SelectedOrder(init, columns, i, j);
      var p, q :| 0 <= p < q < |init| && selInit[i] == init[p] && selInit[j] == init[q];
      assert sel[i] == fields[p] && sel[j] == fields[q];
    } else {
      SelectedContents(init, columns);
      assert selInit[i] in init;
      var p :| 0 <= p < |init| && init[p] == selInit[i];
      assert sel[i] == fields[p] && sel[j] == fields[|fields| - 1];
    }
  }

  /** What `getClassField` returns: the primary-key names, every declared
      field, the hash fields to read (filled in later by the caller) and the
      class. */
  datatype ClassField = ClassField(primaryKey: seq<string>, declaredFields: seq<FieldDecl>, keys: seq<string>, clazz: Schema)

  /** `getClassField(clazz, columns, callback)`: one loop over the declared
      fields; every field is checked for the primary-key annotation before
      the filter, so `primaryKey` does not depend on the columns. `applied`
      lists the fields the callback is applied to, in order. */
  method GetClassField(clazz: Schema, columns: seq<string>) returns (cf: ClassField, applied: seq<FieldDecl>)
    ensures cf == ClassField(PrimaryNames(clazz.fields), clazz.fields, [], clazz)
    ensures applied == Selected(clazz.fields, columns)
  {
    var fields := clazz.fields;
    var primaryKey: seq<string> := [];
    applied := [];
    var i := 0;
    while i < |fields|
      invariant 0 <= i <= |fields|
      invariant primaryKey == PrimaryNames(fields[..i])
      invariant applied == Selected(fields[..i], columns)
    {
      assert fields[..i + 1][..i] == fields[..i];
      if fields[i].primary {
        primaryKey := primaryKey + [fields[i].name];
      }
      if |columns| > 0 && fields[i].name !in columns {
        i := i + 1;
        continue;
      }
      applied := applied + [fields[i]];
      i := i + 1;
    }
    assert fields[..i] == fields;
    cf := ClassField(primaryKey, fields, [], clazz);
  }
}
