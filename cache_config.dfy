/** `RedisCacheConfig.cacheManager`: the table that gives each cache namespace
    its entry time-to-live and whether it may hold null values. Durations are
    in whole seconds. */
module CacheConfig {
  import opened Wrappers

  /** The active Spring profile, as far as the choice of cache manager goes. */
  datatype Profile = TestProfile | OtherProfile

  /** The settings of one namespace: its entry TTL (None = entries never
      expire) and whether a null value is stored. */
  datatype CachePolicy = CachePolicy(ttlSeconds: Option<nat>, cacheNullValues: bool)

  const HelloCache: string := "helloCache"

  /** `defaultConfig`: ten minutes, null values disabled. */
  const DefaultConfig: CachePolicy := CachePolicy(Some(10 * 60), false)

  /** The per-namespace overrides: `helloCache` is the default with a TTL of
      ten seconds. */
  function Overrides(): (m: map<string, CachePolicy>)
    ensures m.Keys == {HelloCache}
  {
    map[HelloCache := DefaultConfig.(ttlSeconds := Some(10))]
  }

  /** The Redis cache manager's policy for namespace `name`: its override if
      it has one, the default otherwise. */
  function RedisPolicy(name: string): (p: CachePolicy)
    ensures name != HelloCache ==> p == DefaultConfig
    ensures name == HelloCache ==> p.ttlSeconds == Some(10)
    ensures p == DefaultConfig.(ttlSeconds := p.ttlSeconds)
    ensures !p.cacheNullValues
  {
    if name in Overrides() then Overrides()[name] else DefaultConfig
  }

  /** The cache manager in force under `profile`: outside the test profile the
      Redis manager serves every namespace; under it, an in-memory manager
      knows `helloCache` only, keeps entries until cleared and stores nulls. */
  function PolicyFor(profile: Profile, name: string): (p: Option<CachePolicy>)
    ensures profile == OtherProfile ==> p == Some(RedisPolicy(name))
    ensures profile == TestProfile ==> (p.Some? <==> name == HelloCache)
    ensures profile == TestProfile && p.Some? ==> p.value.ttlSeconds == None && p.value.cacheNullValues
  {
    match profile
    case OtherProfile => Some(RedisPolicy(name))
    case TestProfile => if name == HelloCache then Some(CachePolicy(None, true)) else None
  }

  /** Only `helloCache` differs from the default, and only in its TTL, which is
      shorter. */
  lemma OnlyHelloCacheOverridden(name: string)
    ensures RedisPolicy(name) != DefaultConfig <==> name == HelloCache
    ensures RedisPolicy(HelloCache).ttlSeconds.value < DefaultConfig.ttlSeconds.value
  {
  }
}
