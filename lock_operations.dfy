/** The naming and argument building of the Redis lock: channel names with a
    Redis Cluster hash tag, owner tokens and entry names made from the
    instance's UUID, the choice of the default lease, and the one field the
    lock updates, `internalLockLeaseTime`, before it hands the lock script its
    `KEYS` and `ARGV` lists. */
module ReactiveLocks {
  import opened Outcomes
  import opened JavaText
  import opened TimeUnits

  /** `LOCK_EXPIRATION_INTERVAL_SECONDS`: the default lease, in seconds. */
  const LOCK_EXPIRATION_INTERVAL_SECONDS: int := 30

  /** The prefix of every lock channel name. */
  const LOCK_TOPIC: string := "redis_lock_topic"

  /** `String.indexOf(c)`: the first position of `c` in `s`, or -1. */
  function FirstIndex(s: string, c: char): (r: int)
    ensures -1 <= r < |s|
  {
    if s == [] then -1
    else if s[0] == c then 0
    else
      var t := FirstIndex(s[1..], c);
      if t < 0 then -1 else t + 1
  }

  /** `indexOf` finds the first `c`, and -1 means there is none. */
  lemma {:induction false} FirstIndexFinds(s: string, c: char)
    ensures FirstIndex(s, c) == -1 <==> c !in s
    ensures FirstIndex(s, c) >= 0 ==> s[FirstIndex(s, c)] == c && c !in s[..FirstIndex(s, c)]
  {
    if s != [] && s[0] != c {
      FirstIndexFinds(s[1..], c);
      var t := FirstIndex(s[1..], c);
      if t >= 0 {
        assert s[..t + 1] == [s[0]] + s[1..][..t];
      }
      assert s == [s[0]] + s[1..];
    }
  }

  /** `prefixName(prefix, name)`: the prefix, a colon, and the name wrapped
      in braces unless it already holds one. */
  function PrefixName(prefix: string, name: string): (r: string)
    ensures prefix + ":" <= r
    ensures '{' in r[|prefix| + 1..]
    ensures IsInfix(name, r)
  {
    if '{' in name then
      var r := prefix + ":" + name;
      assert name <= r[|prefix| + 1..];
      r
    else
      var r := prefix + ":{" + name + "}";
      assert r[|prefix| + 1] == '{';
      assert name <= r[|prefix| + 2..];
      r
  }

  /** `getChannelName(key)`. */
  function ChannelName(key: string): string
  {
    PrefixName(LOCK_TOPIC, key)
  }

  /** What follows the prefix and its colon: the name, wrapped in braces
      unless it holds one. */
  lemma PrefixNameTail(p: string, name: string) returns (tail: string)
    ensures tail == (if '{' in name then name else "{" + name + "}")
    ensures PrefixName(p, name) == p + ":" + tail
  {
    tail := if '{' in name then name else "{" + name + "}";
  }

  /** Two names get the same prefixed name exactly when they are equal or
      one of them is the other, which has no brace, wrapped in braces. */
  lemma PrefixNameCollisions(p: string, a: string, b: string)
    ensures PrefixName(p, a) == PrefixName(p, b) <==>
      a == b || ('{' !in a && b == "{" + a + "}") || ('{' !in b && a == "{" + b + "}")
  {
    var ra := PrefixNameTail(p, a);
    var rb := PrefixNameTail(p, b);
    if PrefixName(p, a) == PrefixName(p, b) {
      assert ra == rb;
      if '{' !in a && '{' !in b {
        assert a == ra[1..|ra| - 1] == rb[1..|rb| - 1] == b;
      }
    }
    if '{' !in a && b == "{" + a + "}" {
      assert b[0] == '{';
      assert p + ":{" + a + "}" == p + ":" + b;
    }
    if '{' !in b && a == "{" + b + "}" {
      assert a[0] == '{';
      assert p + ":{" + b + "}" == p + ":" + a;
    }
  }

  /** Two keys share a channel exactly when they are equal or one of them is
      the other, which has no brace, wrapped in braces. */
  lemma ChannelNameCollisions(a: string, b: string)
    ensures ChannelName(a) == ChannelName(b) <==>
      a == b || ('{' !in a && b == "{" + a + "}") || ('{' !in b && a == "{" + b + "}")
  {
    PrefixNameCollisions(LOCK_TOPIC, a, b);
  }

  /** Among keys that all hold a brace, or that all lack one, distinct keys
      have distinct channels. */
  lemma ChannelNameInjective(a: string, b: string)
    requires ('{' in a) == ('{' in b)
    ensures ChannelName(a) == ChannelName(b) <==> a == b
  {
    ChannelNameCollisions(a, b);
  }

  /** The key `a` and the key `{a}` are given the same channel. */
  lemma ChannelNameCollide()
    ensures ChannelName("a") == ChannelName("{a}")
  {
    assert '{' !in "a" && "{" + "a" + "}" == "{a}";
    ChannelNameCollisions("a", "{a}");
  }

  /** The hash tag of a key under the Redis Cluster specification: the text
      between the first `{` and the first `}` after it, when that text is not
      empty; without one the whole key is hashed. */
  function HashTag(key: string): (r: Option<string>)
    ensures r.Some? ==> r.value != []
  {
    var open := FirstIndex(key, '{');
    if open < 0 then None
    else
      var rest := key[open + 1..];
      var close := FirstIndex(rest, '}');
      if close <= 0 then None else Some(rest[..close])
  }

  /** The tag is taken from inside the key, braces included. */
  lemma HashTagInKey(key: string)
    requires HashTag(key).Some?
    ensures '}' !in HashTag(key).value
    ensures IsInfix("{" + HashTag(key).value + "}", key)
  {
    var open := FirstIndex(key, '{');
    var rest := key[open + 1..];
    var close := FirstIndex(rest, '}');
    FirstIndexFinds(key, '{');
    FirstIndexFinds(rest, '}');
    var w := "{" + rest[..close] + "}";
    var t := key[open..];
    assert t == [key[open]] + rest;
    assert t[..close + 2] == [key[open]] + rest[..close] + [rest[close]];
    assert w <= t;
  }

  /** The first `c` of `a + b` is the first `c` of `b` when `a` has none. */
  lemma {:induction false} FirstIndexAfter(a: string, b: string, c: char)
    requires c !in a && c in b
    ensures FirstIndex(a + b, c) == |a| + FirstIndex(b, c)
  {
    if a == [] {
      assert a + b == b;
    } else {
      assert (a + b)[0] == a[0];
      assert (a + b)[1..] == a[1..] + b;
      FirstIndexAfter(a[1..], b, c);
      FirstIndexFinds(b, c);
    }
  }

  /** Two keys whose first `{` is followed by the same text have the same
      hash tag. */
  lemma HashTagSame(k1: string, o1: int, k2: string, o2: int)
    requires 0 <= o1 < |k1| && FirstIndex(k1, '{') == o1
    requires 0 <= o2 < |k2| && FirstIndex(k2, '{') == o2
    requires k1[o1 + 1..] == k2[o2 + 1..]
    ensures HashTag(k1) == HashTag(k2)
  {
  }

  /** A head without `{` in front of a key does not change the key's hash
      tag. */
  lemma HashTagAfterHead(a: string, key: string)
    requires '{' !in a && '{' in key
    ensures HashTag(a + key) == HashTag(key)
  {
    var k := a + key;
    var open := FirstIndex(key, '{');
    FirstIndexFinds(key, '{');
    assert FirstIndex(k, '{') == |a| + open by {
      FirstIndexAfter(a, key, '{');
    }
    assert k[|a| + open + 1..] == key[open + 1..];
    HashTagSame(k, |a| + open, key, open);
  }

  /** A non-empty brace-free text in braces is its own hash tag. */
  lemma WrappedTag(name: string)
    requires name != [] && '{' !in name && '}' !in name
    ensures HashTag("{" + name + "}") == Some(name)
  {
    var w := "{" + name + "}";
    assert FirstIndex(w, '{') == 0 by {
      assert w[0] == '{';
    }
    var rest := w[1..];
    assert rest == name + "}";
    assert FirstIndex(rest, '}') == |name| by {
      FirstIndexAfter(name, "}", '}');
    }
    assert rest[..|name|] == name;
  }

  /** Wrapping a name that has no braces after a prefix that has none makes
      the whole name the hash tag of the result. */
  lemma PrefixTagIsName(p: string, name: string)
    requires '{' !in p
    requires name != [] && '{' !in name && '}' !in name
    ensures HashTag(PrefixName(p, name)) == Some(name)
  {
    var tail := PrefixNameTail(p, name);
    assert PrefixName(p, name) == (p + ":") + tail;
    assert '{' in tail by {
      assert tail[0] == '{';
    }
    HashTagAfterHead(p + ":", tail);
    WrappedTag(name);
  }

  /** Wrapping a key that has no braces makes the whole key the channel's
      hash tag, so the channel lives in the same cluster slot as the key. */
  lemma ChannelTagIsKey(key: string)
    requires key != [] && '{' !in key && '}' !in key
    ensures HashTag(ChannelName(key)) == Some(key)
  {
    assert '{' !in LOCK_TOPIC;
    PrefixTagIsName(LOCK_TOPIC, key);
  }

  /** A key that already holds a brace is kept as it is, so the channel's
      hash tag is the key's own. */
  lemma ChannelTagKept(key: string)
    requires '{' in key
    ensures HashTag(ChannelName(key)) == HashTag(key)
  {
    var tail := PrefixNameTail(LOCK_TOPIC, key);
    assert '{' !in LOCK_TOPIC + ":";
    HashTagAfterHead(LOCK_TOPIC + ":", key);
  }

  /** A hexadecimal digit as `UUID.toString` writes it. */
  predicate IsHexDigit(ch: char)
  {
    '0' <= ch <= '9' || 'a' <= ch <= 'f'
  }

  /** The text of a `java.util.UUID`: 32 hex digits in groups of 8, 4, 4, 4
      and 12, joined by hyphens. */
  predicate IsUuidText(s: string)
  {
    |s| == 36 && forall i :: 0 <= i < |s| ==> if i == 8 || i == 13 || i == 18 || i == 23 then s[i] == '-' else IsHexDigit(s[i])
  }

  /** Joining two colon-free heads to their tails with a colon loses
      nothing: the heads and the tails can be read back. */
  lemma {:induction false} ColonJoinInjective(h1: string, t1: string, h2: string, t2: string)
    requires ':' !in h1 && ':' !in h2
    ensures h1 + ":" + t1 == h2 + ":" + t2 <==> h1 == h2 && t1 == t2
  {
    var s1, s2 := h1 + ":" + t1, h2 + ":" + t2;
    assert s1 == h1 + (":" + t1) && s2 == h2 + (":" + t2);
    FirstIndexAfter(h1, ":" + t1, ':');
    FirstIndexAfter(h2, ":" + t2, ':');
    assert FirstIndex(":" + t1, ':') == 0 && FirstIndex(":" + t2, ':') == 0;
    if s1 == s2 {
      assert h1 == s1[..|h1|] && h2 == s2[..|h2|];
      assert t1 == s1[|h1| + 1..] && t2 == s2[|h2| + 1..];
    }
  }

  /** A UUID's text holds no colon. */
  lemma UuidHasNoColon(s: string)
    requires IsUuidText(s)
    ensures ':' !in s
  {
  }

  /** A value the lock script receives in `ARGV`. */
  datatype ScriptArg = LongArg(n: int) | TextArg(text: string)

  /** The lock script's invocation: its `KEYS` and `ARGV` lists. */
  datatype ScriptCall = ScriptCall(keys: seq<string>, argv: seq<ScriptArg>)

  /** The lock operations of one client instance. */
  class LockOperations {
    /** The instance's UUID, as text. */
    const id: string
    /** The lease, in milliseconds, of the most recent lock request. */
    var internalLockLeaseTime: int

    ghost predicate Valid()
      reads this
    {
      IsUuidText(id) && IsLong(internalLockLeaseTime)
    }

    /** The lease starts at the 30-second default, in milliseconds. */
    constructor(id: string)
      requires IsUuidText(id)
      ensures this.id == id
      ensures internalLockLeaseTime == 30_000
      ensures Valid()
    {
      DefaultLeaseMillis();
      this.id := id;
      internalLockLeaseTime := ToMillis(LOCK_EXPIRATION_INTERVAL_SECONDS, SECONDS);
    }

    /** `getLockName(threadId)`: the token naming the owning thread. */
    function LockName(threadId: int): (r: string)
      ensures id + ":" <= r
    {
      id + ":" + Decimal(threadId)
    }

    /** `getEntryName(keyName)`. */
    function EntryName(keyName: string): (r: string)
      ensures id + ":" <= r && r[|id| + 1..] == keyName
    {
      id + ":" + keyName
    }

    /** `tryLockInnerAsync`: the lease is converted to milliseconds and kept
        in `internalLockLeaseTime`, then the script is given the lock key as
        its only key and the lease and the owner token as its arguments. A
        null unit throws before anything changes. */
    method TryLockInner(key: string, leaseTime: int, unit: Option<TimeUnit>, threadId: int) returns (r: Result<ScriptCall>)
      requires Valid() && IsLong(leaseTime)
      modifies this
      ensures Valid()
      ensures unit.None? ==> r == Err(NullPointer) && internalLockLeaseTime == old(internalLockLeaseTime)
      ensures unit.Some? ==> internalLockLeaseTime == ToMillis(leaseTime, unit.value)
      ensures unit.Some? ==> r == Ok(ScriptCall([key], [LongArg(internalLockLeaseTime), TextArg(LockName(threadId))]))
    {
      if unit.None? {
        return Err(NullPointer);
      }
      internalLockLeaseTime := ToMillis(leaseTime, unit.value);
      var keys: seq<string> := [];
      keys := keys + [key];
      assert keys == [key];
      var params: seq<ScriptArg> := [];
      params := params + [LongArg(internalLockLeaseTime)];
      params := params + [TextArg(LockName(threadId))];
      assert params == [LongArg(internalLockLeaseTime), TextArg(LockName(threadId))];
      r := Ok(ScriptCall(keys, params));
    }

    /** `tryAcquireAsync`: a lease of -1 asks for the 30-second default,
        which cannot fail and puts the field back at its initial value; any
        other lease is passed on with its unit. */
    method TryAcquire(key: string, leaseTime: int, unit: Option<TimeUnit>, threadId: int) returns (r: Result<ScriptCall>)
      requires Valid() && IsLong(leaseTime)
      modifies this
      ensures Valid()
      ensures leaseTime == -1 ==> internalLockLeaseTime == 30_000
      ensures leaseTime == -1 ==> r == Ok(ScriptCall([key], [LongArg(30_000), TextArg(LockName(threadId))]))
      ensures leaseTime != -1 && unit.None? ==> r == Err(NullPointer) && internalLockLeaseTime == old(internalLockLeaseTime)
      ensures leaseTime != -1 && unit.Some? ==> internalLockLeaseTime == ToMillis(leaseTime, unit.value)
      ensures leaseTime != -1 && unit.Some? ==> r == Ok(ScriptCall([key], [LongArg(internalLockLeaseTime), TextArg(LockName(threadId))]))
    {
      if leaseTime != -1 {
        r := TryLockInner(key, leaseTime, unit, threadId);
        return;
      }
      DefaultLeaseMillis();
      r := TryLockInner(key, LOCK_EXPIRATION_INTERVAL_SECONDS, Some(SECONDS), threadId);
    }

    /** `tryAcquireOnceAsync`: a lease of -1 gives a null result without
        calling the script or changing anything; any other lease goes to
        `tryLockInnerAsync`. */
    method TryAcquireOnce(key: string, leaseTime: int, unit: Option<TimeUnit>, threadId: int) returns (r: Option<Result<ScriptCall>>)
      requires Valid() && IsLong(leaseTime)
      modifies this
      ensures Valid()
      ensures leaseTime == -1 ==> r == None && internalLockLeaseTime == old(internalLockLeaseTime)
      ensures leaseTime != -1 && unit.None? ==> r == Some(Err(NullPointer)) && internalLockLeaseTime == old(internalLockLeaseTime)
      ensures leaseTime != -1 && unit.Some? ==> internalLockLeaseTime == ToMillis(leaseTime, unit.value)
      ensures leaseTime != -1 && unit.Some? ==> r == Some(Ok(ScriptCall([key], [LongArg(internalLockLeaseTime), TextArg(LockName(threadId))])))
    {
      if leaseTime != -1 {
        var inner := TryLockInner(key, leaseTime, unit, threadId);
        return Some(inner);
      }
      return None;
    }
  }

  /** Owner tokens name one thread of one instance: two tokens are equal
      exactly when both the instance UUIDs and the thread ids are. */
  lemma LockNamesDistinct(x: LockOperations, y: LockOperations, t1: int, t2: int)
    requires IsUuidText(x.id) && IsUuidText(y.id)
    ensures x.LockName(t1) == y.LockName(t2) <==> x.id == y.id && t1 == t2
  {
    UuidHasNoColon(x.id);
    UuidHasNoColon(y.id);
    ColonJoinInjective(x.id, Decimal(t1), y.id, Decimal(t2));
    if Decimal(t1) == Decimal(t2) {
      DecimalInjective(t1, t2);
    }
  }

  /** Entry names are equal exactly when both the instance UUIDs and the key
      names are. */
  lemma EntryNamesDistinct(x: LockOperations, y: LockOperations, k1: string, k2: string)
    requires IsUuidText(x.id) && IsUuidText(y.id)
    ensures x.EntryName(k1) == y.EntryName(k2) <==> x.id == y.id && k1 == k2
  {
    UuidHasNoColon(x.id);
    UuidHasNoColon(y.id);
    ColonJoinInjective(x.id, k1, y.id, k2);
  }
}
