/** The hash fields a read asks for (`findHashKey` and the callback that
    `getClassDetail` hands to `getClassField`): for every selected field and
    every primary-key carrier, `compositeKey:fieldName`. */
module HashKeys {
  import opened Outcomes
  import opened JavaText
  import opened Records
  import opened CompositeKeys
  import opened HashMapper

  /** `getHashKeyPre((HV) o)` for a primary-key carrier: a record gives its
      composite key; a null carrier is dereferenced; a plain value is an
      instance of a library class, which has no `@RedisPrimaryKey` field. */
  ghost function ArgKey(a: Arg): Result<string>
  {
    match a
    case Rec(r, _) => CompositeKey(r)
    case Val(Null) => Err(NullPointer)
    case Val(_) => Err(NoPrimaryKey)
  }

  /** Computes `ArgKey`. */
  method ArgKeyOf(a: Arg) returns (res: Result<string>)
    ensures res == ArgKey(a)
  {
    match a
    case Rec(r, _) =>
      res := GetHashKeyPre(r);
    case Val(v) =>
      res := if v == Null then Err(NullPointer) else Err(NoPrimaryKey);
  }

  /** A key of the `preKey` map. The source only ever puts elements of the
      carrier collection into it, but its guard asks about the collection
      itself. */
  datatype PreKey = Elem(a: Arg) | Coll(items: seq<Arg>)

  /** The composite key of every carrier, in order. */
  ghost function CarrierKeys(hashKey: seq<Arg>): (r: seq<Result<string>>)
    ensures |r| == |hashKey|
  {
    seq(|hashKey|, i requires 0 <= i < |hashKey| => ArgKey(hashKey[i]))
  }

  /** The hash fields `findHashKey` lists for field `name` and the first `n`
      carriers, given the carriers' composite keys and the text of the whole
      collection, or the exception of the first carrier whose composite key
      fails. With a type hint (`ret`) each carrier contributes its own
      composite key; without one, every carrier contributes the text of the
      whole collection. */
  function KeysUpTo(name: string, carriers: seq<Result<string>>, text: string, ret: bool, n: nat): Result<seq<string>>
    requires n <= |carriers|
  {
    if n == 0 then Ok([])
    else
      match KeysUpTo(name, carriers, text, ret, n - 1)
      case Err(e) => Err(e)
      case Ok(ks) =>
        if !ret then Ok(ks + [FieldKey(text, name)])
        else
          match carriers[n - 1]
          case Err(e) => Err(e)
          case Ok(h) => Ok(ks + [FieldKey(h, name)])
  }

  /** The listing for one field succeeds exactly when no carrier's key is
      needed or every carrier's key exists, and then it holds one hash field
      per carrier, in carrier order. */
  lemma {:induction false} KeysUpToContents(name: string, carriers: seq<Result<string>>, text: string, ret: bool, n: nat)
    requires n <= |carriers|
    ensures KeysUpTo(name, carriers, text, ret, n).Ok? <==> !ret || forall i :: 0 <= i < n ==> carriers[i].Ok?
    ensures KeysUpTo(name, carriers, text, ret, n).Ok? ==>
      var ks := KeysUpTo(name, carriers, text, ret, n).value;
      && |ks| == n
      && (forall i :: 0 <= i < n ==> ks[i] == FieldKey(if ret then carriers[i].value else text, name))
  {
    if n > 0 {
      KeysUpToContents(name, carriers, text, ret, n - 1);
    }
  }

  /** The first carrier whose composite key fails decides the exception. */
  lemma {:induction false} KeysUpToStops(name: string, carriers: seq<Result<string>>, text: string, i: nat, n: nat)
    requires i < n <= |carriers|
    requires KeysUpTo(name, carriers, text, true, i).Ok? && carriers[i].Err?
    ensures KeysUpTo(name, carriers, text, true, n) == Err(carriers[i].error)
  {
    if n > i + 1 {
      KeysUpToStops(name, carriers, text, i, n - 1);
    }
  }

  /** `findHashKey(field, hashKey, preKey, ret)`. With a type hint each
      carrier's composite key is computed and remembered in `preKey` unless
      the guard finds the collection itself among its keys; without one the
      collection's text is used for every carrier. An exception from
      `getHashKeyPre` propagates. */
  method FindHashKey(name: string, hashKey: seq<Arg>, preKey0: map<PreKey, string>, ret: bool)
    returns (list: Result<seq<string>>, preKey: map<PreKey, string>)
    ensures ret && Coll(hashKey) in preKey0 ==> list == Ok([]) && preKey == preKey0
    ensures !(ret && Coll(hashKey) in preKey0) ==>
      list == KeysUpTo(name, CarrierKeys(hashKey), CollectionText(hashKey), ret, |hashKey|)
    ensures forall k :: k in preKey ==> k in preKey0 || (k.Elem? && k.a in hashKey)
  {
    preKey := preKey0;
    var ks: seq<string> := [];
    var i := 0;
    while i < |hashKey|
      invariant 0 <= i <= |hashKey|
      invariant Coll(hashKey) in preKey <==> Coll(hashKey) in preKey0
      invariant ret && Coll(hashKey) in preKey0 ==> ks == [] && preKey == preKey0
      invariant !(ret && Coll(hashKey) in preKey0) ==>
        KeysUpTo(name, CarrierKeys(hashKey), CollectionText(hashKey), ret, i) == Ok(ks)
      invariant forall k :: k in preKey ==> k in preKey0 || (k.Elem? && k.a in hashKey)
    {
      var o := hashKey[i];
      if ret {
        if Coll(hashKey) !in preKey {
          var hashKeyPre := ArgKeyOf(o);
          if hashKeyPre.Err? {
            KeysUpToStops(name, CarrierKeys(hashKey), CollectionText(hashKey), i, |hashKey|);
            return Err(hashKeyPre.error), preKey;
          }
          preKey := preKey[Elem(o) := hashKeyPre.value];
          ks := ks + [FieldKey(hashKeyPre.value, name)];
        }
      } else {
        ks := ks + [FieldKey(CollectionText(hashKey), name)];
      }
      i := i + 1;
    }
    list := Ok(ks);
  }

  /** The hash fields collected over the selected fields, field by field
      (`keys.addAll(findHashKey(...))`), or the first exception. */
  function KeysFor(fields: seq<FieldDecl>, carriers: seq<Result<string>>, text: string, ret: bool): Result<seq<string>>
  {
    if fields == [] then Ok([])
    else
      match KeysFor(fields[..|fields| - 1], carriers, text, ret)
      case Err(e) => Err(e)
      case Ok(ks) =>
        match KeysUpTo(fields[|fields| - 1].name, carriers, text, ret, |carriers|)
        case Err(e) => Err(e)
        case Ok(more) => Ok(ks + more)
  }

  /** The callback given to `getClassField` in `getClassDetail`: runs
      `findHashKey` on every selected field with one shared `preKey`, which
      starts empty. The guard on `preKey` never fires, because only carriers
      are ever put into it. */
  method CollectKeys(applied: seq<FieldDecl>, hashKey: seq<Arg>, ret: bool) returns (keys: Result<seq<string>>)
    ensures keys == KeysFor(applied, CarrierKeys(hashKey), CollectionText(hashKey), ret)
  {
    var preKey: map<PreKey, string> := map[];
    var acc: seq<string> := [];
    var i := 0;
    while i < |applied|
      invariant 0 <= i <= |applied|
      invariant forall k :: k in preKey ==> k.Elem? && k.a in hashKey
      invariant KeysFor(applied[..i], CarrierKeys(hashKey), CollectionText(hashKey), ret) == Ok(acc)
    {
      assert applied[..i + 1][..i] == applied[..i];
      var list, next := FindHashKey(applied[i].name, hashKey, preKey, ret);
      if list.Err? {
        KeysForStops(applied, CarrierKeys(hashKey), CollectionText(hashKey), ret, i + 1);
        return Err(list.error);
      }
      acc := acc + list.value;
      preKey := next;
      i := i + 1;
    }
    assert applied[..i] == applied;
    keys := Ok(acc);
  }

  /** Once the collection fails, adding fields keeps the same exception. */
  lemma {:induction false} KeysForStops(fields: seq<FieldDecl>, carriers: seq<Result<string>>, text: string, ret: bool, i: nat)
    requires 0 < i <= |fields|
    requires KeysFor(fields[..i], carriers, text, ret).Err?
    ensures KeysFor(fields, carriers, text, ret) == KeysFor(fields[..i], carriers, text, ret)
    decreases |fields| - i
  {
    if i < |fields| {
      assert fields[..i + 1][..i] == fields[..i];
      KeysForStops(fields, carriers, text, ret, i + 1);
    } else {
      assert fields[..i] == fields;
    }
  }

  /** Collecting the keys fails exactly when a carrier's composite key is
      needed (a type hint and at least one selected field) and some carrier
      has none. */
  lemma {:induction false} KeysForFails(fields: seq<FieldDecl>, carriers: seq<Result<string>>, text: string, ret: bool)
    ensures KeysFor(fields, carriers, text, ret).Err? <==>
      ret && fields != [] && exists i :: 0 <= i < |carriers| && carriers[i].Err?
  {
    if fields != [] {
      KeysForFails(fields[..|fields| - 1], carriers, text, ret);
      KeysUpToContents(fields[|fields| - 1].name, carriers, text, ret, |carriers|);
    }
  }

  /** Hash field `k` is asked for on behalf of one selected field and one
      carrier. */
  ghost predicate Asked(fields: seq<FieldDecl>, carriers: seq<Result<string>>, text: string, ret: bool, k: string)
  {
    exists f, i :: 0 <= f < |fields| && 0 <= i < |carriers| && AskedFor(fields[f], carriers[i], text, ret, k)
  }

  /** Hash field `k` is the one asked for on behalf of `field` and a carrier
      with composite key `carrier`. */
  ghost predicate AskedFor(field: FieldDecl, carrier: Result<string>, text: string, ret: bool, k: string)
  {
    if ret then carrier.Ok? && k == FieldKey(carrier.value, field.name) else k == FieldKey(text, field.name)
  }

  /** The collected keys are exactly the hash fields asked for: one per
      selected field and carrier. */
  lemma {:induction false} KeysForContents(fields: seq<FieldDecl>, carriers: seq<Result<string>>, text: string, ret: bool)
    requires KeysFor(fields, carriers, text, ret).Ok?
    ensures forall k :: k in KeysFor(fields, carriers, text, ret).value <==> Asked(fields, carriers, text, ret, k)
  {
    if fields == [] {
      return;
    }
    var init := fields[..|fields| - 1];
    var last := fields[|fields| - 1];
    KeysForContents(init, carriers, text, ret);
    KeysUpToContents(last.name, carriers, text, ret, |carriers|);
    KeysForFails(fields, carriers, text, ret);
    var ks := KeysFor(init, carriers, text, ret).value;
    var more := KeysUpTo(last.name, carriers, text, ret, |carriers|).value;
    forall k
      ensures k in ks + more <==> Asked(fields, carriers, text, ret, k)
    {
      if k in ks {
        var f, i :| 0 <= f < |init| && 0 <= i < |carriers| && AskedFor(init[f], carriers[i], text, ret, k);
        assert fields[f] == init[f];
      }
      if k in more {
        var i :| 0 <= i < |more| && more[i] == k;
        assert AskedFor(fields[|fields| - 1], carriers[i], text, ret, k);
      }
      if Asked(fields, carriers, text, ret, k) {
        var f, i :| 0 <= f < |fields| && 0 <= i < |carriers| && AskedFor(fields[f], carriers[i], text, ret, k);
        if f < |init| {
          assert init[f] == fields[f];
          assert Asked(init, carriers, text, ret, k);
        } else {
          assert more[i] == k;
        }
      }
    }
  }

  /** Without a type hint the carrier collection's text stands in for every
      carrier: the key asked for a numeric primary key of 100 is
      `[100]:userId`, while `putClass` stored `100:userId`. */
  lemma ScalarBranchUsesCollectionText()
    ensures KeysFor([FieldDecl("userId", true)], CarrierKeys([Val(Long(100))]), CollectionText([Val(Long(100))]), false)
      == Ok(["[100]:userId"])
    ensures FieldKey(Render(Long(100)), "userId") == "100:userId"
  {
    assert NatDigits(10) == "10";
    assert Decimal(100) == "100";
    var items := [Val(Long(100))];
    assert seq(|items|, i requires 0 <= i < |items| => ArgText(items[i])) == ["100"];
    assert CollectionText(items) == "[100]";
    var carriers := CarrierKeys(items);
    assert KeysUpTo("userId", carriers, "[100]", false, 0) == Ok([]);
    assert FieldKey("[100]", "userId") == "[100]:userId";
    assert KeysUpTo("userId", carriers, "[100]", false, 1) == Ok([] + [FieldKey("[100]", "userId")]);
    assert [] + ["[100]:userId"] == ["[100]:userId"];
    assert KeysFor([], carriers, "[100]", false) == Ok([]);
    assert [FieldDecl("userId", true)][..0] == [];
  }
}
