# spring-boot-microservice-scaffolding, modelled in Dafny

The service layer of a small Spring Boot microservice, modelled in Dafny:

- **`UserService`** (module `Users`, `user_service.dfy`). Create, read, list,
  update and delete user records in a repository. Usernames and emails stay
  unique. Updates are merge-patches: a null DTO field keeps the stored value.
  Errors become `ResponseStatusException`s with a status and a reason. Here
  the repository is a map from id to record plus an id generator. The
  `UserRepository` and `UserService` classes change it in place. Each service
  method is proved equal to a pure function (`Create`, `Get`, `List`,
  `Update`, `Delete`), and the properties are proved about those functions.
  The repository's `save` and `deleteById` are proved equal to `Save` and a
  key removal. Its `existsBy…` and `findBy…` queries are specified by what
  they answer; `findByUsername` and `findByEmail` pick some holder without
  fixing which one.
- **`SanitisedKeyGenerator`** (module `KeyGenerator`, `key_generator.dfy`).
  A cache key is `"defaultKey"` when the call has no arguments. Otherwise it
  is the whitespace-normalised `String.valueOf` of the first argument.
- **`StringUtils.normalizeSpace`** (module `Whitespace`, `whitespace.dfy`).
  This is the normalisation both the key generator and `hello` apply. It
  trims the ends and collapses every inner run of `Character.isWhitespace`
  characters to one space. Three lemmas fix its result on every input. Its
  Apache Commons Lang source is not part of
  this model; the module follows that library's documented behaviour.
- **`HelloService`** (module `Hello`, `hello_service.dfy`).
  - The greeting function `Greeting`.
  - The `@Cacheable("helloCache")` cache-aside behaviour around it: look up
    the key, answer a live hit, otherwise compute and store.
  - A `HelloService` class whose cache map is updated in place.
  - Expiry is judged against a clock reading passed in as `now`.
- **`RedisCacheConfig`** and the test profile's `CacheConfigForTest`
  (module `CacheConfig`, `cache_config.dfy`).
  - Outside the test profile, every namespace has a 10-minute TTL and no
    nulls, except `helloCache`, which has a 10-second TTL.
  - Under the test profile, an in-memory manager knows only `helloCache`,
    never expires entries and stores nulls.

`Wrappers` (`wrappers.dfy`) holds `Option` and `Result`.

The code and its tests disagree on one point, and the model follows the
code. `hello` tests `StringUtils.isEmpty`, which is false for a blank name
(HelloService.java:18). So `hello("   ")` returns `"Hello, " +
normalizeSpace("   ") + "!"`, which is `"Hello, !"` (HelloService.java:21).
HelloServiceTest.java:48-52 expects `"Hello, World!"`. `Hello.BlankNameGreeting`
proves what the code returns. `Hello.EmptyNameShadowsBlankName` shows the
only way the test's value can appear: it is served from the cache after
`hello("")`, because `""` and `"   "` share the empty key.

## Model

Members are named `Module.member` or `Module.Class.member`.

| member | source | states |
|---|---|---|
| Users.Save | src/main/java/com/rjain/spring_demo/service/UserService.java:32-35 | A record without an id is stored under the next generated id, which then advances. A record with an id overwrites that id's entry. |
| Users.Create | src/main/java/com/rjain/spring_demo/service/UserService.java:25-37 | Succeeds exactly when neither a non-null username nor a non-null email is already taken. Fails with "username already exists" exactly when a non-null username is taken. Fails with "email already exists" exactly when the username passes and a non-null email is taken. A failure changes nothing. On success the result is the DTO with a freshly generated id, which was not stored before, and only that entry is added. A valid repository stays valid (ids match keys, unique usernames and emails). |
| Users.UsernameInUse | src/main/java/com/rjain/spring_demo/hibernate/repository/UserRepository.java:17 | `existsByUsername`: some stored record carries the username. |
| Users.EmailInUse | src/main/java/com/rjain/spring_demo/hibernate/repository/UserRepository.java:19 | `existsByEmail`: some stored record carries the email. |
| Users.Merge | src/main/java/com/rjain/spring_demo/service/UserService.java:85-93 | The merge-patch: each non-null patch field replaces the stored one. Its properties are stated by `Users.UpdateIsMergePatch`. |
| Users.ChangesUsername | src/main/java/com/rjain/spring_demo/service/UserService.java:63 | The patch carries a username and it differs from the stored one; only then is the username checked for uniqueness. |
| Users.ChangesEmail | src/main/java/com/rjain/spring_demo/service/UserService.java:74 | The patch carries an email and it differs from the stored one; only then is the email checked for uniqueness. |
| Users.ServiceError.Reason | src/main/java/com/rjain/spring_demo/service/UserService.java:27-44 | The reason strings: "user not found", "username already exists", "email already exists". |
| Users.ServiceError.Status | src/main/java/com/rjain/spring_demo/service/UserService.java:27-44 | The HTTP status: 404 (`NOT_FOUND`) for a missing user, 400 (`BAD_REQUEST`) for a taken username or email. |
| Users.Get | src/main/java/com/rjain/spring_demo/service/UserService.java:39-45 | Succeeds exactly when the id is stored and returns the stored record. Otherwise fails with "user not found". |
| Users.List | src/main/java/com/rjain/spring_demo/service/UserService.java:47-51 | One record per id of the page, in page order, each the stored record, which carries that id. |
| Users.Update | src/main/java/com/rjain/spring_demo/service/UserService.java:53-97 | Fails with "user not found" exactly when the id is absent. Fails with "username already exists" exactly when the username changes to a taken one. Fails with "email already exists" exactly when the username check passes and the email changes to a taken one. A failure changes nothing. On success the merge-patch is written back under the id. Validity is preserved. |
| Users.UpdateIsMergePatch | src/main/java/com/rjain/spring_demo/service/UserService.java:63-93 | Field by field: a non-null patch value replaces the stored one and a null keeps it. The id and timestamps never change. |
| Users.UpdateKeepingOwnNamesSucceeds | src/main/java/com/rjain/spring_demo/service/UserService.java:62-83 | Resending one's own username or email is never a conflict, though the repository reports it as in use. |
| Users.UpdateSucceeds | src/main/java/com/rjain/spring_demo/service/UserService.java:62-96 | An update that passes both uniqueness checks stores exactly the merged record under its id. |
| Users.UpdateKeepsValid | src/main/java/com/rjain/spring_demo/service/UserService.java:62-95 | Writing back such a merge keeps usernames and emails unique. |
| Users.Delete | src/main/java/com/rjain/spring_demo/service/UserService.java:99-104 | Fails with "user not found" exactly when the id is absent, changing nothing. Otherwise removes that key only. Every remaining record is unchanged. Validity is preserved. |
| Users.DeleteRemovesExactlyOne | src/main/java/com/rjain/spring_demo/service/UserService.java:99-104 | After a delete, reading the id fails and reading any other id answers as before. |
| Users.CreateThenGet | src/main/java/com/rjain/spring_demo/service/UserService.java:25-45 | A created record reads back under its new id. |
| Users.DuplicateUsernameScenario | src/test/java/com/rjain/spring_demo/service/UserServiceTest.java:120-135 | A second "john_doe" is refused with "username already exists". |
| Users.LifecycleScenario | src/main/java/com/rjain/spring_demo/service/UserService.java:25-104 | Id 999 of an empty repository is not found. A create, get, delete, get sequence gets id 1, reads the record, deletes it, then gets "user not found". |
| Users.FirstNameOnlyScenario | src/test/java/com/rjain/spring_demo/service/UserServiceTest.java:418-459 | Patching only the first name changes only the first name. |
| Users.UserRepository.constructor | src/main/java/com/rjain/spring_demo/hibernate/repository/UserRepository.java:12 | An empty repository whose generator starts at 1. |
| Users.UserRepository.FindAll | src/main/java/com/rjain/spring_demo/service/UserService.java:48 | The page's stored records, in the page's order; the same as `List`. |
| Users.UserRepository.ExistsById | src/main/java/com/rjain/spring_demo/service/UserService.java:100 | True exactly when the id is stored. |
| Users.UserRepository.ExistsByUsername | src/main/java/com/rjain/spring_demo/hibernate/repository/UserRepository.java:17 | True exactly when a stored record carries the username. |
| Users.UserRepository.ExistsByEmail | src/main/java/com/rjain/spring_demo/hibernate/repository/UserRepository.java:19 | True exactly when a stored record carries the email. |
| Users.UserRepository.FindById | src/main/java/com/rjain/spring_demo/service/UserService.java:41 | Some record exactly when the id is stored, namely the stored one. |
| Users.UserRepository.FindByUsername | src/main/java/com/rjain/spring_demo/hibernate/repository/UserRepository.java:13 | Some record exactly when the username is in use. It is a stored record carrying it. |
| Users.UserRepository.FindByEmail | src/main/java/com/rjain/spring_demo/hibernate/repository/UserRepository.java:15 | Some record exactly when the email is in use. It is a stored record carrying it. |
| Users.UserRepository.SaveUser | src/main/java/com/rjain/spring_demo/service/UserService.java:35 | The saved record and the new repository state are those of `Save`. |
| Users.UserRepository.DeleteById | src/main/java/com/rjain/spring_demo/service/UserService.java:103 | Removes the id's entry and leaves the generator as it was. |
| Users.UserService.constructor | src/main/java/com/rjain/spring_demo/service/UserService.java:19-23 | The service holds the repository it is given. It starts valid when that repository is valid. |
| Users.UserService.CreateUser | src/main/java/com/rjain/spring_demo/service/UserService.java:25-37 | Performed step by step with the repository's `existsBy…` queries, as the source does. Answer and new repository state are those of `Create`. The repository stays valid. |
| Users.UserService.GetUser | src/main/java/com/rjain/spring_demo/service/UserService.java:39-45 | Answer is that of `Get`. |
| Users.UserService.ListUsers | src/main/java/com/rjain/spring_demo/service/UserService.java:47-51 | Answer is that of `List`. |
| Users.UserService.UpdateUser | src/main/java/com/rjain/spring_demo/service/UserService.java:53-97 | Performed step by step as the source does. Answer and new state are those of `Update`. The repository stays valid. |
| Users.UserService.DeleteUser | src/main/java/com/rjain/spring_demo/service/UserService.java:99-104 | Calls `existsById` and then `deleteById`, as the source does. Answer and new state are those of `Delete`. The repository stays valid. |
| KeyGenerator.ValueOf | src/main/java/com/rjain/spring_demo/interceptor/SanitisedKeyGenerator.java:17 | `String.valueOf` of a string argument: the string itself, or "null" for a null reference. |
| KeyGenerator.Generate | src/main/java/com/rjain/spring_demo/interceptor/SanitisedKeyGenerator.java:14-17 | No arguments give "defaultKey". Otherwise the key is `NormalizeSpace` of `String.valueOf` of the first argument. It is in normal form and has the same non-whitespace text, in order, as `String.valueOf` of the first argument. |
| KeyGenerator.KeyIgnoresLaterArguments | src/main/java/com/rjain/spring_demo/interceptor/SanitisedKeyGenerator.java:17 | Arguments after the first never change the key. |
| KeyGenerator.NullSharesKeyWithNullText | src/main/java/com/rjain/spring_demo/interceptor/SanitisedKeyGenerator.java:17 | A null argument and the text "null" share the key "null". |
| KeyGenerator.BlankArgumentsShareEmptyKey | src/main/java/com/rjain/spring_demo/interceptor/SanitisedKeyGenerator.java:17 | The key is empty exactly when the argument is empty or all whitespace. |
| KeyGenerator.KeyIsStable | src/main/java/com/rjain/spring_demo/interceptor/SanitisedKeyGenerator.java:17 | Feeding a key back in gives the same key. |
| KeyGenerator.SpacesExample | src/test/java/com/rjain/spring_demo/service/HelloServiceTest.java:62-67 | "  John   Doe  " gets the key "John Doe". |
| KeyGenerator.TabNewlineExample | src/test/java/com/rjain/spring_demo/service/HelloServiceTest.java:69-74 | "John\t\nDoe" gets the key "John Doe". |
| KeyGenerator.BlankExample | src/test/java/com/rjain/spring_demo/service/HelloServiceTest.java:41-53 | "" and "   " share the empty key. |
| Whitespace.IsWhitespace | src/main/java/com/rjain/spring_demo/interceptor/SanitisedKeyGenerator.java:17 | `Character.isWhitespace`: the space separators other than the non-breaking ones, TAB to CR, and U+001C to U+001F. |
| Whitespace.NormalizeSpace | src/main/java/com/rjain/spring_demo/interceptor/SanitisedKeyGenerator.java:17 | The result has no whitespace at either end, only single plain spaces inside, and is no longer than the input. |
| Whitespace.NormalizeIgnoresLeading | src/main/java/com/rjain/spring_demo/service/HelloService.java:21 | Blank text in front of any string does not change its normal form. |
| Whitespace.NormalizeWord | src/main/java/com/rjain/spring_demo/service/HelloService.java:21 | A string without whitespace is its own normal form. |
| Whitespace.NormalizeWordThenRun | src/main/java/com/rjain/spring_demo/service/HelloService.java:21 | After a non-empty word, a whitespace run becomes exactly one space when more text follows and disappears at the end; the rest is normalised in turn. With the two lemmas above this fixes the result on every input. |
| Whitespace.NormalizeKeepsText | src/main/java/com/rjain/spring_demo/service/HelloService.java:21 | Normalisation removes only whitespace: the other characters stay, in order. |
| Whitespace.NormalizeEmptyIffBlank | src/main/java/com/rjain/spring_demo/service/HelloService.java:21 | The result is empty exactly when the input is empty or all whitespace. |
| Whitespace.NormalizeFixesNormalized | src/main/java/com/rjain/spring_demo/service/HelloService.java:21 | A string already in normal form is returned unchanged. |
| Whitespace.NormalizeIdempotent | src/main/java/com/rjain/spring_demo/service/HelloService.java:21 | Normalising twice equals normalising once. |
| Whitespace.NormalizeTwoWords | src/main/java/com/rjain/spring_demo/service/HelloService.java:21 | Two words with any whitespace runs around and between them become the words joined by one space. |
| Whitespace.TrimLeading | src/main/java/com/rjain/spring_demo/service/HelloService.java:21 | The result is no longer than the input and does not start with whitespace. |
| Whitespace.TrimLeadingBlank | src/main/java/com/rjain/spring_demo/service/HelloService.java:21 | Blank text in front of a string is trimmed along with the string's own leading whitespace. |
| Whitespace.TrimLeadingSplits | src/main/java/com/rjain/spring_demo/service/HelloService.java:21 | What is trimmed is an all-whitespace prefix, and the rest is a suffix of the input. |
| Whitespace.Collapse | src/main/java/com/rjain/spring_demo/service/HelloService.java:21 | Each whitespace run becomes one space and a trailing run is dropped. Its shape is stated by `Whitespace.CollapseShape`. |
| Whitespace.CollapseShape | src/main/java/com/rjain/spring_demo/service/HelloService.java:21 | After leading trimming, the collapsed string ends in non-whitespace and is single-spaced. |
| Hello.IsEmpty | src/main/java/com/rjain/spring_demo/service/HelloService.java:18 | `StringUtils.isEmpty`: null or the empty string, and nothing else (a blank string is not empty). |
| Hello.Greeting | src/main/java/com/rjain/spring_demo/service/HelloService.java:16-21 | Every greeting is "Hello, " + middle + "!". A null or empty name gives "Hello, World!". Any other name gives its normalised form as the middle. The middle is always in normal form. |
| Hello.GreetingExamples | src/test/java/com/rjain/spring_demo/service/HelloServiceTest.java:34-60 | null and "" give "Hello, World!". "John" gives "Hello, John!". |
| Hello.BlankNameGreeting | src/main/java/com/rjain/spring_demo/service/HelloService.java:18-21 | A blank name is not empty, so "   " gives "Hello, !". The test at HelloServiceTest.java:48-52 expects otherwise. |
| Hello.KeyCollisions | src/main/java/com/rjain/spring_demo/service/HelloService.java:15-21 | Two names with the same key get different uncached greetings exactly when one is null and the other is not, or one is "" and the other is not. |
| Hello.Live | src/main/java/com/rjain/spring_demo/config/RedisCacheConfig.java:40-45 | An entry is live when it never expires or its expiry instant lies after the reading time. |
| Hello.Lookup | src/main/java/com/rjain/spring_demo/service/HelloService.java:15 | A read hits exactly when the key is stored and its entry has not expired, and answers the stored value. |
| Hello.Expiry | src/main/java/com/rjain/spring_demo/config/RedisCacheConfig.java:40-45 | An entry expires exactly when the namespace has a TTL, and then exactly that TTL after it was written. |
| Hello.Stored | src/main/java/com/rjain/spring_demo/config/RedisCacheConfig.java:39-45 | A write touches only its own key and keeps every other entry. Under a no-nulls policy it never adds a null entry. |
| Hello.StoredThenLookup | src/main/java/com/rjain/spring_demo/config/RedisCacheConfig.java:39-45 | Within the TTL a write is read back, and other keys are unaffected. A null under a no-nulls policy writes nothing. |
| Hello.StoredExpires | src/main/java/com/rjain/spring_demo/config/RedisCacheConfig.java:45 | Once the TTL has run out, the written key reads as absent. |
| Hello.CacheAside | src/main/java/com/rjain/spring_demo/service/HelloService.java:15-21 | A call either leaves the cache as it was or writes its own freshly computed greeting under the caller's key, with the namespace's expiry. |
| Hello.CacheAsideHitOrMiss | src/main/java/com/rjain/spring_demo/service/HelloService.java:15 | A hit answers the stored value and changes nothing. A miss answers the computed greeting and stores it under the key, leaving other keys' reads as they were. |
| Hello.RepeatCallSameAnswer | src/test/java/com/rjain/spring_demo/service/HelloServiceTest.java:90-102 | While the entry is live, a second call with the same name answers the same and writes nothing. |
| Hello.CacheAsideKeepsCoherence | src/main/java/com/rjain/spring_demo/service/HelloService.java:15-21 | If every entry is the greeting of a name with that key, every call keeps it so. The answer is the greeting of some name sharing the caller's key. |
| Hello.CachedEqualsUncached | src/main/java/com/rjain/spring_demo/service/HelloService.java:15-21 | On such a cache the cached answer equals the uncached one for every key except "" and "null". |
| Hello.SharedKeyServesFirstAnswer | src/main/java/com/rjain/spring_demo/service/HelloService.java:15 | On a cleared cache, a second name with the same key gets the first name's greeting while the entry lives. |
| Hello.NullTextGreeting | src/main/java/com/rjain/spring_demo/service/HelloService.java:21 | Uncached, "null" gives "Hello, null!". |
| Hello.NullNameShadowsNullText | src/main/java/com/rjain/spring_demo/service/HelloService.java:15-21 | After hello(null), hello("null") answers "Hello, World!" instead of "Hello, null!". |
| Hello.EmptyNameShadowsBlankName | src/main/java/com/rjain/spring_demo/service/HelloService.java:15-21 | After hello(""), hello("   ") answers "Hello, World!" instead of "Hello, !". |
| Hello.HelloService.constructor | src/test/java/com/rjain/spring_demo/config/CacheConfigForTest.java:15-18 | The service uses the policy its profile gives `helloCache`. Its cache is the one it is handed: empty under the test profile's in-memory manager, and under Redis any cache of greetings filed under their names' keys. |
| Hello.HelloService.Get | src/main/java/com/rjain/spring_demo/service/HelloService.java:15 | As `Lookup`, on the service's cache. |
| Hello.HelloService.Put | src/main/java/com/rjain/spring_demo/service/HelloService.java:15 | The new cache is that of `Stored` under the service's policy. |
| Hello.HelloService.Clear | src/test/java/com/rjain/spring_demo/service/HelloServiceTest.java:26-29 | The cache is empty afterwards. |
| Hello.HelloService.Hello | src/main/java/com/rjain/spring_demo/service/HelloService.java:15-21 | Answer and new cache are those of `CacheAside`. The cache stays coherent. The answer is the greeting of a name with the caller's key. |
| CacheConfig.DefaultConfig | src/main/java/com/rjain/spring_demo/config/RedisCacheConfig.java:30-40 | `defaultConfig`: a ten-minute TTL and null values disabled. |
| CacheConfig.Overrides | src/main/java/com/rjain/spring_demo/config/RedisCacheConfig.java:42-45 | Only `helloCache` has an override. |
| CacheConfig.RedisPolicy | src/main/java/com/rjain/spring_demo/config/RedisCacheConfig.java:26-52 | Any namespace other than `helloCache` gets the default (600 s, no nulls). `helloCache` gets 10 s and is otherwise the default. No namespace caches nulls. |
| CacheConfig.PolicyFor | src/test/java/com/rjain/spring_demo/config/CacheConfigForTest.java:10-18 | Outside the test profile: the Redis policy. Under it: only `helloCache` is known, with no TTL and nulls allowed. |
| CacheConfig.OnlyHelloCacheOverridden | src/main/java/com/rjain/spring_demo/config/RedisCacheConfig.java:42-49 | A namespace's policy differs from the default exactly when it is `helloCache`, whose TTL is shorter. |

## Left out

- The scripts, controllers, OpenSearch configuration and application bootstrap: they are outside the service layer.
- `UserMapper` and Jackson: mapping is a field-for-field copy, so a DTO and an entity are one record here.
- Redis serialisation, `transactionAware` and `enableStatistics`: none changes what a read returns in a single-threaded run.
- Redis connection failures: the manager is built without an error handler (RedisCacheConfig.java:47-52), so a failing cache read or write makes `hello` throw instead of answering. The model's cache never fails.
- How Redis expires entries: an entry written at `t` with TTL `d` is live before `t + d`, judged against a clock reading the caller passes in.
- Users.Create and Users.Update do not model the race between the uniqueness check and `save` when two requests run concurrently. They do not model the database unique constraint that would then fire.
- Entity lifecycle hooks that set `createdAt`/`updatedAt`: the model carries the timestamps unchanged through every operation.
- Users.List takes the page as the sequence of ids the repository selected. How a `Pageable` picks and orders them is not modelled.
- Users.Update, Users.UserService.UpdateUser: the source mutates the loaded entity before a later check may throw. The model changes no state on failure, which is what the source leaves persisted outside a transaction.
- Users.Get, Users.Update, Users.Delete: `findById(null)` and `existsById(null)` throw in the repository (UserService.java:41, 56, 100). The model's ids are never null.
- Ids are unbounded integers rather than Java `Long`: overflow of the id generator is not modelled.
- Whitespace.NormalizeSpace: the library rewrites every U+00A0 to a plain space, and the model keeps it unchanged. The library's final `trim()` of control characters at or below U+0020 that are not Java whitespace is left out.
- Strings are sequences of Unicode scalar values, not UTF-16 code units: a surrogate pair is one character here.
- KeyGenerator.Generate: only null or string arguments are modelled, not other objects' `toString`. A varargs `params` array that is itself null is left out.
- Hello.Stored: a RedisCache with null values disabled throws on a put of null. The model drops such a write. `hello` never returns null, so this path is not reachable from the modelled service.
- Hello.HelloService: the model's cache belongs to one object and is used by one call at a time. Under Redis the namespace is shared by every instance and every concurrent request, and survives restarts. The model assumes every entry found there was written by this code, as `Coherent` states, and does not model interleaved calls.
- Logging: it has no effect on results.
- The timing assertion at HelloServiceTest.java:100-101 measures wall-clock time, which is not modelled.
