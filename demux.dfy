/** Splitting the flat, positional `HMGET` answer back into one field map per
    composite key (`toMap`): each hash field `compositeKey:fieldName` is cut at
    its last ":". */
module Demultiplex {
  import opened Outcomes
  import opened JavaText
  import opened Records

  /** Every character of `s` is `c`. */
  predicate AllChars(s: string, c: char)
  {
    forall i :: 0 <= i < |s| ==> s[i] == c
  }

  /** Every piece is the empty string. */
  predicate AllEmpty(parts: seq<string>)
  {
    forall i :: 0 <= i < |parts| ==> parts[i] == ""
  }

  /** Text made only of separators splits into empty pieces only. */
  lemma {:induction false} SegmentsEmptyOfSeparators(s: string, c: char)
    requires AllChars(s, c)
    ensures AllEmpty(Segments(s, c))
    decreases |s|
  {
    if s == "" {
      assert Segments(s, c) == [s];
    } else {
      var k := |s| - 1;
      assert LastIndexOf(s, c) == k;
      var init := s[..k];
      assert AllChars(init, c);
      SegmentsEmptyOfSeparators(init, c);
      assert Segments(s, c) == Segments(init, c) + [s[k + 1..]];
      assert s[k + 1..] == "";
    }
  }

  /** Text whose pieces are all empty is made only of separators. */
  lemma {:induction false} SeparatorsOfSegmentsEmpty(s: string, c: char)
    requires AllEmpty(Segments(s, c))
    ensures AllChars(s, c)
    decreases |s|
  {
    var k := LastIndexOf(s, c);
    var parts := Segments(s, c);
    if k < 0 {
      assert parts == [s] && parts[0] == s;
    } else {
      var init := s[..k];
      assert parts == Segments(init, c) + [s[k + 1..]];
      assert parts[|parts| - 1] == s[k + 1..] == "";
      assert k == |s| - 1;
      forall i | 0 <= i < |Segments(init, c)|
        ensures Segments(init, c)[i] == ""
      {
        assert Segments(init, c)[i] == parts[i];
      }
      assert AllEmpty(Segments(init, c));
      SeparatorsOfSegmentsEmpty(init, c);
      forall i | 0 <= i < |s|
        ensures s[i] == c
      {
        if i < k {
          assert init[i] == s[i];
        }
      }
    }
  }

  /** All pieces of a split are empty exactly when the text is nothing but
      separators. */
  lemma SegmentsAllEmpty(s: string, c: char)
    ensures AllEmpty(Segments(s, c)) <==> AllChars(s, c)
  {
    if AllChars(s, c) {
      SegmentsEmptyOfSeparators(s, c);
    }
    if AllEmpty(Segments(s, c)) {
      SeparatorsOfSegmentsEmpty(s, c);
    }
  }

  /** Dropping the trailing empty pieces leaves nothing exactly when every
      piece is empty. */
  lemma DropTrailingEmptyNothing(parts: seq<string>)
    ensures DropTrailingEmpty(parts) == [] <==> AllEmpty(parts)
  {
    var r := DropTrailingEmpty(parts);
    if r != [] {
      assert parts[|r| - 1] == r[|r| - 1];
    }
  }

  /** The part of `toMap` that reads one hash field: `key.split(":")` must
      give at least one piece, then `key.substring(0, key.lastIndexOf(":"))`
      is the composite key and the last piece of the split the field name. */
  function SplitFieldKey(key: string): Result<(string, string)>
  {
    var split := JavaSplit(key, ':');
    if |split| == 0 then Err(SplitFailed)
    else
      var idx := LastIndexOf(key, ':');
      if idx < 0 then Err(IndexOutOfBounds) else Ok((key[..idx], split[|split| - 1]))
  }

  /** Reading a hash field fails on a key without any colon (the substring
      bound is -1) and on a key made only of colons (the split is empty), and
      on nothing else. */
  lemma SplitFieldKeyFails(key: string)
    ensures SplitFieldKey(key) == Err(IndexOutOfBounds) <==> ':' !in key
    ensures SplitFieldKey(key) == Err(SplitFailed) <==> key != "" && AllChars(key, ':')
    ensures SplitFieldKey(key).Err? <==> ':' !in key || AllChars(key, ':')
  {
    SegmentsAllEmpty(key, ':');
    DropTrailingEmptyNothing(Segments(key, ':'));
    if key != "" && AllChars(key, ':') {
      assert key[0] == ':';
      assert JavaSplit(key, ':') == DropTrailingEmpty(Segments(key, ':')) == [];
    }
  }

  /** A hash field is cut at its last colon; the field name has no colon and
      is not empty, and it is the text after that colon unless the key ends
      in one. */
  lemma SplitFieldKeyShape(key: string)
    requires SplitFieldKey(key).Ok?
    ensures var (hash, name) := SplitFieldKey(key).value;
      && key == hash + ":" + key[|hash| + 1..]
      && ':' !in key[|hash| + 1..]
      && name != "" && ':' !in name
      && (key[|key| - 1] != ':' ==> name == key[|hash| + 1..])
  {
    var idx := LastIndexOf(key, ':');
    assert key == key[..idx] + ":" + key[idx + 1..];
    var parts := Segments(key, ':');
    var split := DropTrailingEmpty(parts);
    assert split[|split| - 1] in parts;
    if key[|key| - 1] != ':' {
      assert parts[|parts| - 1] == key[idx + 1..];
    }
  }

  /** A field key built from a composite key and a non-empty, colon-free field
      name splits back into the two. */
  lemma SplitFieldKeyRoundTrip(hash: string, name: string)
    requires name != "" && ':' !in name
    ensures SplitFieldKey(hash + ":" + name) == Ok((hash, name))
  {
    var key := hash + ":" + name;
    assert key[|hash|] == ':';
    assert key[..|hash|] == hash && key[|hash| + 1..] == name;
    assert LastIndexOf(key, ':') == |hash|;
    var parts := Segments(key, ':');
    assert parts[|parts| - 1] == name;
  }

  /** A key ending in ":" is cut at that colon, but its field name is the last
      non-empty piece: `"100:"` reads as composite key "100", field "100". */
  lemma SplitFieldKeyTrailingColon()
    ensures SplitFieldKey("100:") == Ok(("100", "100"))
  {
    var key := "100:";
    assert LastIndexOf(key, ':') == 3;
    assert LastIndexOf(key[..3], ':') == -1 by {
      assert key[..3] == "100";
    }
    assert Segments(key, ':') == ["100", ""];
  }

  /** The nested map `toMap` returns: composite key to field name to value. */
  type Groups = map<string, map<string, Scalar>>

  /** Puts `value` under field `name` of group `hash`, creating the group. */
  function Place(all: Groups, hash: string, name: string, value: Scalar): Groups
  {
    all[hash := (if hash in all then all[hash] else map[])[name := value]]
  }

  /** Each key in turn passed through `read`. */
  function ReadAll<K, V>(read: K -> V, keys: seq<K>): (r: seq<V>)
    ensures |r| == |keys|
  {
    if |keys| == 0 then []
    else ReadAll(read, keys[..|keys| - 1]) + [read(keys[|keys| - 1])]
  }

  /** Position `i` of the readings is the reading of key `i`. */
  lemma {:induction false} ReadAllAt<K, V>(read: K -> V, keys: seq<K>, i: nat)
    requires i < |keys|
    ensures ReadAll(read, keys)[i] == read(keys[i])
    decreases |keys|
  {
    var n := |keys| - 1;
    if i < n {
      ReadAllAt(read, keys[..n], i);
    }
  }

  /** The first `n` readings as pairs, or the failure of the first one that
      did not succeed. */
  function SplitUpTo(readings: seq<Result<(string, string)>>, n: nat): (r: Result<seq<(string, string)>>)
    requires n <= |readings|
    ensures r.Ok? ==> |r.value| == n
  {
    if n == 0 then Ok([])
    else
      match SplitUpTo(readings, n - 1)
      case Err(e) => Err(e)
      case Ok(pairs) =>
        match readings[n - 1]
        case Err(e) => Err(e)
        case Ok(pair) => Ok(pairs + [pair])
  }

  /** One more successful reading extends the pairs by its pair. */
  lemma SplitUpToStep(readings: seq<Result<(string, string)>>, i: nat, pairs: seq<(string, string)>)
    requires i < |readings| && SplitUpTo(readings, i) == Ok(pairs) && readings[i].Ok?
    ensures SplitUpTo(readings, i + 1) == Ok(pairs + [readings[i].value])
  {
  }

  /** The pairs are the readings, position by position. */
  lemma {:induction false} SplitUpToContents(readings: seq<Result<(string, string)>>, n: nat)
    requires n <= |readings|
    ensures SplitUpTo(readings, n).Ok? ==> forall i :: 0 <= i < n ==> readings[i] == Ok(SplitUpTo(readings, n).value[i])
  {
    if n > 0 {
      SplitUpToContents(readings, n - 1);
    }
  }

  /** Reading fails with the failure of the first read that did not succeed. */
  lemma {:induction false} SplitUpToStops(readings: seq<Result<(string, string)>>, i: nat, n: nat)
    requires i < n <= |readings|
    requires SplitUpTo(readings, i).Ok? && readings[i].Err?
    ensures SplitUpTo(readings, n) == Err(readings[i].error)
    decreases n
  {
    if n > i + 1 {
      SplitUpToStops(readings, i, n - 1);
    }
  }

  /** Reading succeeds when every read succeeds. */
  lemma {:induction false} SplitUpToReadable(readings: seq<Result<(string, string)>>, n: nat)
    requires n <= |readings|
    requires forall i :: 0 <= i < n ==> readings[i].Ok?
    ensures SplitUpTo(readings, n).Ok?
  {
    if n > 0 {
      SplitUpToReadable(readings, n - 1);
    }
  }

  /** Each value in turn under its pair's composite key and field name. */
  function Group(pairs: seq<(string, string)>, values: seq<Scalar>): Groups
    requires |pairs| <= |values|
  {
    if pairs == [] then map[]
    else
      var n := |pairs| - 1;
      Place(Group(pairs[..n], values), pairs[n].0, pairs[n].1, values[n])
  }

  /** What `toMap(keys, values)` returns, or the assertion it fails: the two
      lists must have the same length and every key must be readable. */
  function Demux(keys: seq<string>, values: seq<Scalar>): Result<Groups>
  {
    if |keys| != |values| then Err(SizeMismatch)
    else
      match SplitUpTo(ReadAll(SplitFieldKey, keys), |keys|)
      case Err(e) => Err(e)
      case Ok(pairs) => Ok(Group(pairs, values))
  }

  /** `toMap`: one pass over the positions, grouping each value under the
      composite key of its hash field. */
  method ToMap(keys: seq<string>, values: seq<Scalar>) returns (r: Result<Groups>)
    ensures r == Demux(keys, values)
  {
    if |keys| != |values| {
      return Err(SizeMismatch);
    }
    var allMap: Groups := map[];
    ghost var readings := ReadAll(SplitFieldKey, keys);
    ghost var pairs: seq<(string, string)> := [];
    var i := 0;
    while i < |keys|
      invariant 0 <= i <= |keys|
      invariant SplitUpTo(readings, i) == Ok(pairs)
      invariant allMap == Group(pairs, values)
    {
      var key := keys[i];
      var value := values[i];
      var split := JavaSplit(key, ':');
      if |split| == 0 {
        ReadAllAt(SplitFieldKey, keys, i);
        assert SplitFieldKey(key) == Err(SplitFailed);
        SplitUpToStops(readings, i, |keys|);
        return Err(SplitFailed);
      }
      var idx := LastIndexOf(key, ':');
      if idx < 0 {
        ReadAllAt(SplitFieldKey, keys, i);
        assert SplitFieldKey(key) == Err(IndexOutOfBounds);
        SplitUpToStops(readings, i, |keys|);
        return Err(IndexOutOfBounds);
      }
      var hashKey := key[..idx];
      var group := if hashKey in allMap then allMap[hashKey] else map[];
      var fieldName := split[|split| - 1];
      group := group[fieldName := value];
      allMap := allMap[hashKey := group];
      ReadAllAt(SplitFieldKey, keys, i);
      assert readings[i] == Ok((hashKey, fieldName));
      SplitUpToStep(readings, i, pairs);
      GroupStep(pairs, (hashKey, fieldName), values);
      pairs := pairs + [(hashKey, fieldName)];
      i := i + 1;
    }
    return Ok(allMap);
  }

  /** The groups hold a field exactly for each pair. */
  lemma {:induction false} GroupFields(pairs: seq<(string, string)>, values: seq<Scalar>, hash: string, name: string)
    requires |pairs| <= |values|
    ensures hash in Group(pairs, values) && name in Group(pairs, values)[hash] <==> (hash, name) in pairs
  {
    if pairs != [] {
      var n := |pairs| - 1;
      GroupFields(pairs[..n], values, hash, name);
      assert pairs == pairs[..n] + [pairs[n]];
    }
  }

  /** There is a group exactly for each composite key of a pair. */
  lemma {:induction false} GroupKeys(pairs: seq<(string, string)>, values: seq<Scalar>, hash: string)
    requires |pairs| <= |values|
    ensures hash in Group(pairs, values) <==> exists i :: 0 <= i < |pairs| && pairs[i].0 == hash
  {
    if pairs != [] {
      var n := |pairs| - 1;
      var init := pairs[..n];
      GroupKeys(init, values, hash);
      if hash in Group(init, values) {
        var i :| 0 <= i < |init| && init[i].0 == hash;
        assert pairs[i].0 == hash;
      }
      if hash != pairs[n].0 && exists i :: 0 <= i < |pairs| && pairs[i].0 == hash {
        var i :| 0 <= i < |pairs| && pairs[i].0 == hash;
        assert init[i].0 == hash;
      }
    }
  }

  /** A field named by several pairs holds the value of the last of them. */
  lemma {:induction false} GroupLastWins(pairs: seq<(string, string)>, values: seq<Scalar>, i: nat)
    requires |pairs| <= |values| && i < |pairs|
    requires forall t :: i < t < |pairs| ==> pairs[t] != pairs[i]
    ensures pairs[i].0 in Group(pairs, values) && pairs[i].1 in Group(pairs, values)[pairs[i].0]
    ensures Group(pairs, values)[pairs[i].0][pairs[i].1] == values[i]
  {
    var n := |pairs| - 1;
    if i < n {
      var init := pairs[..n];
      GroupLastWins(init, values, i);
    }
  }

  /** One more pair places its value on top of the earlier groups. */
  lemma GroupStep(pairs: seq<(string, string)>, pair: (string, string), values: seq<Scalar>)
    requires |pairs| < |values|
    ensures Group(pairs + [pair], values) == Place(Group(pairs, values), pair.0, pair.1, values[|pairs|])
  {
    assert (pairs + [pair])[..|pairs|] == pairs;
  }

  /** `toMap` succeeds exactly when the lengths agree and every key can be
      read. */
  lemma DemuxOk(keys: seq<string>, values: seq<Scalar>)
    ensures Demux(keys, values).Ok? <==> |keys| == |values| && forall i :: 0 <= i < |keys| ==> SplitFieldKey(keys[i]).Ok?
  {
    SplitUpToContents(ReadAll(SplitFieldKey, keys), |keys|);
    forall i | 0 <= i < |keys|
      ensures ReadAll(SplitFieldKey, keys)[i] == SplitFieldKey(keys[i])
    {
      ReadAllAt(SplitFieldKey, keys, i);
    }
    if |keys| == |values| && forall i :: 0 <= i < |keys| ==> SplitFieldKey(keys[i]).Ok? {
      SplitUpToReadable(ReadAll(SplitFieldKey, keys), |keys|);
    }
  }

  /** The result holds field `name` of group `hash` exactly when some key
      reads as that pair. */
  lemma DemuxFields(keys: seq<string>, values: seq<Scalar>, hash: string, name: string)
    requires Demux(keys, values).Ok?
    ensures var all := Demux(keys, values).value;
      hash in all && name in all[hash] <==> exists i :: 0 <= i < |keys| && SplitFieldKey(keys[i]) == Ok((hash, name))
  {
    var readings := ReadAll(SplitFieldKey, keys);
    SplitUpToContents(readings, |keys|);
    var pairs := SplitUpTo(readings, |keys|).value;
    GroupFields(pairs, values, hash, name);
    if (hash, name) in pairs {
      var i :| 0 <= i < |pairs| && pairs[i] == (hash, name);
      ReadAllAt(SplitFieldKey, keys, i);
    }
    if exists i :: 0 <= i < |keys| && SplitFieldKey(keys[i]) == Ok((hash, name)) {
      var i :| 0 <= i < |keys| && SplitFieldKey(keys[i]) == Ok((hash, name));
      ReadAllAt(SplitFieldKey, keys, i);
    }
  }

  /** Each value lands at its key's composite key and field name; when
      several keys read as the same pair, the last one wins. */
  lemma DemuxLastWins(keys: seq<string>, values: seq<Scalar>, i: nat)
    requires Demux(keys, values).Ok? && i < |keys|
    requires forall t :: i < t < |keys| ==> SplitFieldKey(keys[t]) != SplitFieldKey(keys[i])
    ensures SplitFieldKey(keys[i]).Ok?
    ensures var all := Demux(keys, values).value;
      var (hash, name) := SplitFieldKey(keys[i]).value;
      hash in all && name in all[hash] && all[hash][name] == values[i]
  {
    SplitUpToContents(ReadAll(SplitFieldKey, keys), |keys|);
    var pairs := SplitUpTo(ReadAll(SplitFieldKey, keys), |keys|).value;
    ReadAllAt(SplitFieldKey, keys, i);
    forall t | i < t < |pairs|
      ensures pairs[t] != pairs[i]
    {
      ReadAllAt(SplitFieldKey, keys, t);
    }
    GroupLastWins(pairs, values, i);
  }

  /** There is a group for `hash` exactly when some key reads with that
      composite key: one group per distinct composite key. */
  lemma DemuxGroups(keys: seq<string>, values: seq<Scalar>, hash: string)
    requires Demux(keys, values).Ok?
    ensures hash in Demux(keys, values).value <==>
      exists i :: 0 <= i < |keys| && SplitFieldKey(keys[i]).Ok? && SplitFieldKey(keys[i]).value.0 == hash
  {
    SplitUpToContents(ReadAll(SplitFieldKey, keys), |keys|);
    var pairs := SplitUpTo(ReadAll(SplitFieldKey, keys), |keys|).value;
    GroupKeys(pairs, values, hash);
    if hash in Demux(keys, values).value {
      var i :| 0 <= i < |pairs| && pairs[i].0 == hash;
      ReadAllAt(SplitFieldKey, keys, i);
    }
    if exists i :: 0 <= i < |keys| && SplitFieldKey(keys[i]).Ok? && SplitFieldKey(keys[i]).value.0 == hash {
      var i :| 0 <= i < |keys| && SplitFieldKey(keys[i]).Ok? && SplitFieldKey(keys[i]).value.0 == hash;
      ReadAllAt(SplitFieldKey, keys, i);
    }
  }
}
