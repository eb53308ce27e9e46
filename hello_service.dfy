/** `HelloService.hello` and the `@Cacheable` cache-aside wrapper around it,
    which keeps greetings in the `helloCache` namespace under the key
    `SanitisedKeyGenerator` derives from the name. Time is an abstract clock
    in whole seconds, supplied by the caller. */
module Hello {
  import opened Wrappers
  import opened Whitespace
  import opened KeyGenerator
  import opened CacheConfig

  const World: string := "Hello, World!"

  /** `StringUtils.isEmpty`: null or the empty string. A blank string such as
      "   " is not empty. */
  predicate IsEmpty(name: Option<string>) {
    name == None || name == Some("")
  }

  /** The fallback greeting has the shape of every other greeting. */
  lemma WorldShape(w: string)
    requires w == World
    ensures |w| >= 8 && w[..7] == "Hello, " && w[|w| - 1] == '!'
    ensures Normalized(w[7..|w| - 1])
  {
    assert w == "Hello, " + "World" + "!";
    assert w[7..|w| - 1] == "World";
    NormalizeFixesNormalized("World");
  }

  /** The body of `hello(name)`. */
  function Greeting(name: Option<string>): (g: string)
    ensures |g| >= 8 && g[..7] == "Hello, " && g[|g| - 1] == '!'
    ensures IsEmpty(name) ==> g == World
    ensures !IsEmpty(name) ==> g[7..|g| - 1] == NormalizeSpace(name.value)
    ensures Normalized(g[7..|g| - 1])
  {
    if IsEmpty(name) then
      WorldShape(World);
      World
    else
      var g := "Hello, " + NormalizeSpace(name.value) + "!";
      assert g[7..|g| - 1] == NormalizeSpace(name.value);
      g
  }

  /** The greetings the service's callers rely on. */
  lemma GreetingExamples(john: string)
    requires john == "John"
    ensures Greeting(None) == World && Greeting(Some("")) == World
    ensures Greeting(Some(john)) == "Hello, John!"
  {
    assert Normalized(john) by {
      assert forall i :: 0 <= i < |john| ==> !IsWhitespace(john[i]);
    }
    NormalizeFixesNormalized(john);
  }

  /** A name made only of spaces is not empty, so it is greeted with nothing
      between the comma and the exclamation mark, not with "World". */
  lemma BlankNameGreeting()
    ensures Greeting(Some("   ")) == "Hello, !"
  {
    NormalizeEmptyIffBlank("   ");
  }

  /** Names that share a key get the same greeting except in two cases: the
      key "null", shared by a null name (greeted "World") and names that
      normalise to the text "null"; and the empty key, shared by the empty name
      (greeted "World") and the blank names (greeted with nothing). */
  lemma KeyCollisions(a: Option<string>, b: Option<string>)
    requires Generate([a]) == Generate([b])
    ensures Greeting(a) != Greeting(b) <==> (a.None? != b.None?) || ((a == Some("")) != (b == Some("")))
  {
    NullSharesKeyWithNullText();
    assert NormalizeSpace("") == "" by { NormalizeEmptyIffBlank(""); }
    var ga, gb := Greeting(a), Greeting(b);
    if !IsEmpty(a) && !IsEmpty(b) {
      assert ga == "Hello, " + ga[7..|ga| - 1] + "!" by { assert ga == ga[..7] + ga[7..|ga| - 1] + [ga[|ga| - 1]]; }
      assert gb == "Hello, " + gb[7..|gb| - 1] + "!" by { assert gb == gb[..7] + gb[7..|gb| - 1] + [gb[|gb| - 1]]; }
    } else if IsEmpty(a) && !IsEmpty(b) {
      assert gb[7..|gb| - 1] == NormalizeSpace(b.value) == Generate([a]);
      assert gb[7..|gb| - 1] != "World" by {
        if a == None { assert "null" != "World"; } else { assert "" != "World"; }
      }
    } else if !IsEmpty(a) && IsEmpty(b) {
      assert ga[7..|ga| - 1] == NormalizeSpace(a.value) == Generate([b]);
      assert ga[7..|ga| - 1] != "World" by {
        if b == None { assert "null" != "World"; } else { assert "" != "World"; }
      }
    }
  }

  /** One stored value and the instant it stops being served (None: never). */
  datatype Entry = Entry(value: Option<string>, expiresAt: Option<int>)

  /** An entry is served until its expiry instant. That a Redis entry written at
      `now` with TTL `t` is gone from `now + t` on is the library's behaviour,
      assumed here. */
  predicate Live(e: Entry, now: int) {
    e.expiresAt == None || now < e.expiresAt.value
  }

  /** The expiry instant of an entry written at `now` under `p`. */
  function Expiry(p: CachePolicy, now: int): (t: Option<int>)
    ensures t.Some? <==> p.ttlSeconds.Some?
    ensures t.Some? ==> t.value == now + p.ttlSeconds.value
  {
    match p.ttlSeconds
    case None => None
    case Some(ttl) => Some(now + ttl)
  }

  /** A cache read: the stored value if the entry is there and live. */
  function Lookup(entries: map<string, Entry>, key: string, now: int): (r: Option<Option<string>>)
    ensures r.Some? <==> key in entries && Live(entries[key], now)
    ensures r.Some? ==> r.value == entries[key].value
  {
    if key in entries && Live(entries[key], now) then Some(entries[key].value) else None
  }

  /** A cache write under `p`: last writer wins; a null is dropped when the
      namespace disallows nulls. */
  function Stored(p: CachePolicy, entries: map<string, Entry>, key: string, value: Option<string>, now: int): (m: map<string, Entry>)
    ensures m.Keys <= entries.Keys + {key}
    ensures forall k :: k in entries && k != key ==> k in m && m[k] == entries[k]
    ensures !p.cacheNullValues ==> forall k :: k in m && m[k].value == None ==> k in entries && m[k] == entries[k]
  {
    if value == None && !p.cacheNullValues then entries
    else entries[key := Entry(value, Expiry(p, now))]
  }

  /** After a write, the key serves the written value (when one was written)
      until the TTL runs out, and every other key is as it was. */
  lemma StoredThenLookup(p: CachePolicy, entries: map<string, Entry>, key: string, value: Option<string>, now: int, later: int, other: string)
    requires now <= later && (p.ttlSeconds.Some? ==> later < now + p.ttlSeconds.value)
    requires other != key
    ensures var m := Stored(p, entries, key, value, now);
      && (value.Some? || p.cacheNullValues ==> Lookup(m, key, later) == Some(value))
      && (value.None? && !p.cacheNullValues ==> m == entries)
      && Lookup(m, other, later) == Lookup(entries, other, later)
  {
  }

  /** `@Cacheable` around `hello`: look the key up; on a hit answer the stored
      value without running the body; on a miss run the body, store its
      result and answer it. */
  function CacheAside(p: CachePolicy, entries: map<string, Entry>, name: Option<string>, now: int): (r: (Option<string>, map<string, Entry>))
    ensures var key := Generate([name]);
      || r.1 == entries
      || (r.0 == Some(Greeting(name)) && r.1 == entries[key := Entry(r.0, Expiry(p, now))])
  {
    var key := Generate([name]);
    match Lookup(entries, key, now)
    case Some(v) => (v, entries)
    case None =>
      var g := Greeting(name);
      (Some(g), Stored(p, entries, key, Some(g), now))
  }

  /** A written entry is gone once its TTL has run out. */
  lemma StoredExpires(p: CachePolicy, entries: map<string, Entry>, key: string, value: Option<string>, now: int, later: int)
    requires p.ttlSeconds.Some? && later >= now + p.ttlSeconds.value
    requires value.Some? || p.cacheNullValues
    ensures Lookup(Stored(p, entries, key, value, now), key, later) == None
  {
  }

  /** A hit answers the stored value and changes nothing; a miss answers the
      computed greeting and writes it under the key, leaving other keys alone. */
  lemma CacheAsideHitOrMiss(p: CachePolicy, entries: map<string, Entry>, name: Option<string>, now: int)
    ensures var key := Generate([name]); var r := CacheAside(p, entries, name, now);
      && (Lookup(entries, key, now).Some? ==> r == (Lookup(entries, key, now).value, entries))
      && (Lookup(entries, key, now).None? ==>
            && r.0 == Some(Greeting(name))
            && key in r.1 && r.1[key] == Entry(Some(Greeting(name)), Expiry(p, now))
            && forall k :: k != key ==> Lookup(r.1, k, now) == Lookup(entries, k, now))
  {
    var key := Generate([name]);
    if Lookup(entries, key, now).None? {
      var g := Greeting(name);
      var m := entries[key := Entry(Some(g), Expiry(p, now))];
      assert CacheAside(p, entries, name, now) == (Some(g), m);
      forall k | k != key
        ensures Lookup(m, k, now) == Lookup(entries, k, now)
      {
        assert (k in m) == (k in entries);
      }
    }
  }

  /** A second call with the same name, while what the first call left is still
      live, gives the same answer and writes nothing. */
  lemma RepeatCallSameAnswer(p: CachePolicy, entries: map<string, Entry>, name: Option<string>, now: int, later: int)
    requires now <= later
    requires var key := Generate([name]); key in entries && Live(entries[key], now) ==> Live(entries[key], later)
    requires p.ttlSeconds.Some? ==> later < now + p.ttlSeconds.value
    ensures CacheAside(p, CacheAside(p, entries, name, now).1, name, later) == CacheAside(p, entries, name, now)
  {
  }

  /** The cache holds only greetings, each under the key of a name it greets. */
  ghost predicate Coherent(entries: map<string, Entry>) {
    forall key :: key in entries ==>
      exists n :: Generate([n]) == key && entries[key].value == Some(Greeting(n))
  }

  /** A call keeps the cache coherent, and its answer is the greeting of some
      name with the same key. */
  lemma CacheAsideKeepsCoherence(p: CachePolicy, entries: map<string, Entry>, name: Option<string>, now: int)
    requires Coherent(entries)
    ensures var r := CacheAside(p, entries, name, now);
      && Coherent(r.1)
      && exists n :: Generate([n]) == Generate([name]) && r.0 == Some(Greeting(n))
  {
    var key := Generate([name]);
    var r := CacheAside(p, entries, name, now);
    if Lookup(entries, key, now).None? {
      forall k | k in r.1
        ensures exists n :: Generate([n]) == k && r.1[k].value == Some(Greeting(n))
      {
        if k == key {
          assert Generate([name]) == k && r.1[k].value == Some(Greeting(name));
        } else {
          assert r.1[k] == entries[k];
        }
      }
      assert Generate([name]) == key && r.0 == Some(Greeting(name));
    }
  }

  /** On a coherent cache the cached answer is the uncached one, except for
      the two shared keys "" and "null". */
  lemma CachedEqualsUncached(p: CachePolicy, entries: map<string, Entry>, name: Option<string>, now: int)
    requires Coherent(entries)
    requires Generate([name]) != "" && Generate([name]) != "null"
    ensures CacheAside(p, entries, name, now).0 == Some(Greeting(name))
  {
    CacheAsideKeepsCoherence(p, entries, name, now);
    var n :| Generate([n]) == Generate([name]) && CacheAside(p, entries, name, now).0 == Some(Greeting(n));
    NullSharesKeyWithNullText();
    BlankArgumentsShareEmptyKey("");
    KeyCollisions(n, name);
  }

  /** Two names with the same key: on a cleared cache the second caller,
      while the first caller's entry is live, gets the first caller's
      greeting. */
  lemma SharedKeyServesFirstAnswer(p: CachePolicy, now: int, later: int, a: Option<string>, b: Option<string>)
    requires now <= later && (p.ttlSeconds.Some? ==> later < now + p.ttlSeconds.value)
    requires Generate([a]) == Generate([b])
    ensures var first := CacheAside(p, map[], a, now);
      && first.0 == Some(Greeting(a))
      && CacheAside(p, first.1, b, later).0 == Some(Greeting(a))
  {
    var key := Generate([a]);
    var first := CacheAside(p, map[], a, now);
    assert first.1 == map[key := Entry(Some(Greeting(a)), Expiry(p, now))];
    assert Lookup(first.1, key, later) == Some(Some(Greeting(a)));
  }

  /** The uncached greeting of the text "null". */
  lemma NullTextGreeting(nullText: string)
    requires nullText == "null"
    ensures Greeting(Some(nullText)) == "Hello, null!"
  {
    NullSharesKeyWithNullText();
    assert NormalizeSpace(nullText) == nullText;
  }

  /** After `hello(null)` on a cleared cache, `hello("null")` answers
      "Hello, World!", though uncached it would answer "Hello, null!". */
  lemma NullNameShadowsNullText(p: CachePolicy, now: int, later: int, nullText: string)
    requires now <= later && (p.ttlSeconds.Some? ==> later < now + p.ttlSeconds.value)
    requires nullText == "null"
    ensures var first := CacheAside(p, map[], None, now);
      && first.0 == Some(World)
      && CacheAside(p, first.1, Some(nullText), later).0 == Some(World)
      && Greeting(Some(nullText)) == "Hello, null!"
  {
    NullSharesKeyWithNullText();
    SharedKeyServesFirstAnswer(p, now, later, None, Some(nullText));
    NullTextGreeting(nullText);
  }

  /** After `hello("")` on a cleared cache, `hello("   ")` answers
      "Hello, World!", though uncached it would answer "Hello, !". */
  lemma EmptyNameShadowsBlankName(p: CachePolicy, now: int, later: int)
    requires now <= later && (p.ttlSeconds.Some? ==> later < now + p.ttlSeconds.value)
    ensures var first := CacheAside(p, map[], Some(""), now);
      && first.0 == Some(World)
      && CacheAside(p, first.1, Some("   "), later).0 == Some(World)
      && Greeting(Some("   ")) == "Hello, !"
  {
    BlankExample();
    BlankNameGreeting();
  }

  /** The greeting service with its `helloCache` namespace. */
  class HelloService {
    const policy: CachePolicy
    var entries: map<string, Entry>

    ghost predicate Valid()
      reads this
    {
      Coherent(entries)
    }

    /** The service as wired under `profile`. The in-memory cache of the test
        profile starts empty; the Redis namespace may already hold entries,
        which earlier runs of this code wrote. */
    constructor (profile: Profile, initial: map<string, Entry>)
      requires Coherent(initial)
      requires profile == TestProfile ==> initial == map[]
      ensures Valid()
      ensures Some(policy) == PolicyFor(profile, HelloCache) && entries == initial
    {
      policy := if profile == TestProfile then CachePolicy(None, true) else RedisPolicy(HelloCache);
      entries := initial;
    }

    /** `Cache.get`: the live stored value under `key`, if any. */
    method Get(key: string, now: int) returns (hit: Option<Option<string>>)
      ensures hit.Some? <==> key in entries && Live(entries[key], now)
      ensures hit.Some? ==> hit.value == entries[key].value
    {
      hit := None;
      if key in entries {
        var e := entries[key];
        if e.expiresAt == None || now < e.expiresAt.value {
          hit := Some(e.value);
        }
      }
    }

    /** `Cache.put` under this namespace's policy. */
    method Put(key: string, value: Option<string>, now: int)
      modifies this
      ensures entries == Stored(policy, old(entries), key, value, now)
    {
      if value != None || policy.cacheNullValues {
        var expiresAt := if policy.ttlSeconds == None then None else Some(now + policy.ttlSeconds.value);
        entries := entries[key := Entry(value, expiresAt)];
      }
    }

    /** `Cache.clear`, as the tests do before each case. */
    method Clear()
      modifies this
      ensures Valid() && entries == map[]
    {
      entries := map[];
    }

    /** `hello(name)` called through its cache. */
    method Hello(name: Option<string>, now: int) returns (g: Option<string>)
      requires Valid()
      modifies this
      ensures Valid()
      ensures (g, entries) == CacheAside(policy, old(entries), name, now)
      ensures exists n :: Generate([n]) == Generate([name]) && g == Some(Greeting(n))
    {
      CacheAsideKeepsCoherence(policy, entries, name, now);
      var key := Generate([name]);
      var hit := Get(key, now);
      if hit.Some? {
        g := hit.value;
      } else {
        var greeting := Greeting(name);
        Put(key, Some(greeting), now);
        g := Some(greeting);
      }
    }
  }
}
