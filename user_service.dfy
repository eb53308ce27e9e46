/** `UserService` over its `UserRepository`: create, read, list, merge-patch
    update and delete of user records, keeping usernames and emails unique.
    The repository is a map from id to record plus the id generator's next
    value; `UserMapper` is a field-for-field copy, so a DTO and an entity are
    the same record here. */
module Users {
  import opened Wrappers

  type Id = int

  /** The fields of `UserDto`. The two timestamps are carried as opaque
      instants. */
  datatype User = User(
    id: Option<Id>,
    username: Option<string>,
    email: Option<string>,
    firstName: Option<string>,
    lastName: Option<string>,
    active: Option<bool>,
    createdAt: Option<int>,
    updatedAt: Option<int>)

  /** The `ResponseStatusException`s the service throws. */
  datatype ServiceError = UserNotFound | UsernameTaken | EmailTaken {
    function Reason(): string {
      match this
      case UserNotFound => "user not found"
      case UsernameTaken => "username already exists"
      case EmailTaken => "email already exists"
    }

    function Status(): int {
      if this == UserNotFound then 404 else 400
    }
  }

  /** The repository's state: the stored records by id and the next id the
      generator will assign. */
  datatype Store = Store(users: map<Id, User>, nextId: Id)

  /** `existsByUsername`. */
  predicate UsernameInUse(users: map<Id, User>, name: string) {
    exists id :: id in users && users[id].username == Some(name)
  }

  /** `existsByEmail`. */
  predicate EmailInUse(users: map<Id, User>, email: string) {
    exists id :: id in users && users[id].email == Some(email)
  }

  /** No two stored records share a non-null username or a non-null email. */
  predicate Unique(users: map<Id, User>) {
    forall i, j :: i in users && j in users && i != j ==>
      && (users[i].username == None || users[i].username != users[j].username)
      && (users[i].email == None || users[i].email != users[j].email)
  }

  /** Every record is stored under its own id, every id is below the next one
      to be generated, and usernames and emails are unique. */
  predicate ValidStore(s: Store) {
    && (forall id :: id in s.users ==> s.users[id].id == Some(id) && id < s.nextId)
    && Unique(s.users)
  }

  /** `UserRepository.save`: a record without id is inserted under a fresh
      one, a record with an id overwrites what is stored under that id. */
  function Save(s: Store, e: User): (r: (User, Store))
    ensures e.id == None ==> r.0 == e.(id := Some(s.nextId)) && r.1 == Store(s.users[s.nextId := r.0], s.nextId + 1)
    ensures e.id != None ==> r.0 == e && r.1 == Store(s.users[e.id.value := e], s.nextId)
  {
    match e.id
    case None =>
      var saved := e.(id := Some(s.nextId));
      (saved, Store(s.users[s.nextId := saved], s.nextId + 1))
    case Some(id) => (e, Store(s.users[id := e], s.nextId))
  }

  /** `createUser(dto)`. */
  function Create(s: Store, dto: User): (r: (Result<User, ServiceError>, Store))
    ensures r.0.Failure? ==> r.1 == s
    ensures r.0.Success? <==>
      && !(dto.username != None && UsernameInUse(s.users, dto.username.value))
      && !(dto.email != None && EmailInUse(s.users, dto.email.value))
    ensures r.0 == Failure(UsernameTaken) <==> dto.username != None && UsernameInUse(s.users, dto.username.value)
    ensures r.0 == Failure(EmailTaken) <==>
      && !(dto.username != None && UsernameInUse(s.users, dto.username.value))
      && dto.email != None && EmailInUse(s.users, dto.email.value)
    ensures r.0.Success? ==>
      && r.0.value == dto.(id := Some(s.nextId))
      && r.1 == Store(s.users[s.nextId := r.0.value], s.nextId + 1)
    ensures ValidStore(s) && r.0.Success? ==> s.nextId !in s.users
    ensures ValidStore(s) ==> ValidStore(r.1)
  {
    if dto.username != None && UsernameInUse(s.users, dto.username.value) then (Failure(UsernameTaken), s)
    else if dto.email != None && EmailInUse(s.users, dto.email.value) then (Failure(EmailTaken), s)
    else
      var saved := Save(s, dto.(id := None));
      (Success(saved.0), saved.1)
  }

  /** `getUser(id)`. */
  function Get(s: Store, id: Id): (r: Result<User, ServiceError>)
    ensures r.Success? <==> id in s.users
    ensures r.Success? ==> r.value == s.users[id]
    ensures r.Failure? ==> r.error == UserNotFound
  {
    if id in s.users then Success(s.users[id]) else Failure(UserNotFound)
  }

  /** `listUsers`: the records of a page the repository selected, in the
      repository's order. */
  function List(s: Store, page: seq<Id>): (r: seq<User>)
    requires forall i :: 0 <= i < |page| ==> page[i] in s.users
    ensures |r| == |page|
    ensures forall i :: 0 <= i < |page| ==> r[i] == s.users[page[i]]
    ensures ValidStore(s) ==> forall i :: 0 <= i < |page| ==> r[i].id == Some(page[i])
  {
    var r := seq(|page|, i requires 0 <= i < |page| => s.users[page[i]]);
    assert ValidStore(s) ==> forall i :: 0 <= i < |page| ==> r[i].id == Some(page[i]) by {
      if ValidStore(s) {
        forall i | 0 <= i < |page| ensures r[i].id == Some(page[i]) {
          var k := page[i];
          assert k in s.users && r[i] == s.users[k];
          assert s.users[k].id == Some(k);
        }
      }
    }
    r
  }

  /** The merge-patch of `patch` onto `existing`: a non-null patch field
      replaces the stored one and a null one keeps it; the id and the
      timestamps always stay. */
  function Merge(existing: User, patch: User): (m: User)
  {
    existing.(
      username := if patch.username != None then patch.username else existing.username,
      email := if patch.email != None then patch.email else existing.email,
      firstName := if patch.firstName != None then patch.firstName else existing.firstName,
      lastName := if patch.lastName != None then patch.lastName else existing.lastName,
      active := if patch.active != None then patch.active else existing.active)
  }

  /** Whether the patch changes the username (non-null and different). */
  predicate ChangesUsername(existing: User, patch: User) {
    patch.username != None && patch.username != existing.username
  }

  /** Whether the patch changes the email (non-null and different). */
  predicate ChangesEmail(existing: User, patch: User) {
    patch.email != None && patch.email != existing.email
  }

  /** `updateUser(id, dto)`. */
  function Update(s: Store, id: Id, dto: User): (r: (Result<User, ServiceError>, Store))
    ensures r.0.Failure? ==> r.1 == s
    ensures r.0 == Failure(UserNotFound) <==> id !in s.users
    ensures r.0 == Failure(UsernameTaken) <==>
      id in s.users && ChangesUsername(s.users[id], dto) && UsernameInUse(s.users, dto.username.value)
    ensures r.0 == Failure(EmailTaken) <==>
      && id in s.users
      && !(ChangesUsername(s.users[id], dto) && UsernameInUse(s.users, dto.username.value))
      && ChangesEmail(s.users[id], dto) && EmailInUse(s.users, dto.email.value)
    ensures ValidStore(s) && r.0.Success? ==>
      && id in s.users && r.0.value == Merge(s.users[id], dto)
      && r.1 == Store(s.users[id := r.0.value], s.nextId)
    ensures ValidStore(s) ==> ValidStore(r.1)
  {
    if id !in s.users then (Failure(UserNotFound), s)
    else
      var existing := s.users[id];
      if ChangesUsername(existing, dto) && UsernameInUse(s.users, dto.username.value) then
        (Failure(UsernameTaken), s)
      else if ChangesEmail(existing, dto) && EmailInUse(s.users, dto.email.value) then
        (Failure(EmailTaken), s)
      else
        var saved := Save(s, Merge(existing, dto));
        UpdateKeepsValid(s, id, dto);
        (Success(saved.0), saved.1)
  }

  /** Writing back a merge that passed both uniqueness checks keeps the
      repository valid. */
  lemma UpdateKeepsValid(s: Store, id: Id, dto: User)
    requires id in s.users
    requires !(ChangesUsername(s.users[id], dto) && UsernameInUse(s.users, dto.username.value))
    requires !(ChangesEmail(s.users[id], dto) && EmailInUse(s.users, dto.email.value))
    ensures ValidStore(s) ==> ValidStore(Save(s, Merge(s.users[id], dto)).1)
  {
    if ValidStore(s) {
      var m := Merge(s.users[id], dto);
      var users' := s.users[id := m];
      assert Save(s, m).1.users == users';
      forall i, j | i in users' && j in users' && i != j
        ensures users'[i].username == None || users'[i].username != users'[j].username
        ensures users'[i].email == None || users'[i].email != users'[j].email
      {
        if i == id {
          assert users'[j] == s.users[j];
        } else if j == id {
          assert users'[i] == s.users[i];
        }
      }
    }
  }

  /** An update that passes both uniqueness checks writes the merged record
      back under its id. */
  lemma UpdateSucceeds(s: Store, id: Id, dto: User)
    requires ValidStore(s) && id in s.users
    requires !(ChangesUsername(s.users[id], dto) && UsernameInUse(s.users, dto.username.value))
    requires !(ChangesEmail(s.users[id], dto) && EmailInUse(s.users, dto.email.value))
    ensures var m := Merge(s.users[id], dto);
      Update(s, id, dto) == (Success(m), Store(s.users[id := m], s.nextId))
  {
  }

  /** `deleteUser(id)`. */
  function Delete(s: Store, id: Id): (r: (Result<(), ServiceError>, Store))
    ensures r.0.Failure? <==> id !in s.users
    ensures r.0.Failure? ==> r.0.error == UserNotFound && r.1 == s
    ensures r.0.Success? ==> r.1.users.Keys == s.users.Keys - {id} && r.1.nextId == s.nextId
    ensures forall k :: k in r.1.users ==> k in s.users && r.1.users[k] == s.users[k]
    ensures ValidStore(s) ==> ValidStore(r.1)
  {
    if id !in s.users then (Failure(UserNotFound), s)
    else (Success(()), Store(s.users - {id}, s.nextId))
  }

  /** The merge-patch rule field by field: the username and email move to a
      non-null patch value, as do first name, last name and the active flag;
      a null patch field, the id and the timestamps keep what was stored. */
  lemma UpdateIsMergePatch(s: Store, id: Id, dto: User)
    requires ValidStore(s) && Update(s, id, dto).0.Success?
    ensures var stored := s.users[id]; var u := Update(s, id, dto).0.value;
      && u.id == stored.id && u.createdAt == stored.createdAt && u.updatedAt == stored.updatedAt
      && u.username == (if dto.username == None then stored.username else dto.username)
      && u.email == (if dto.email == None then stored.email else dto.email)
      && u.firstName == (if dto.firstName == None then stored.firstName else dto.firstName)
      && u.lastName == (if dto.lastName == None then stored.lastName else dto.lastName)
      && u.active == (if dto.active == None then stored.active else dto.active)
  {
  }

  /** Keeping one's own username or email is never a conflict, even though the
      repository reports it as in use. */
  lemma UpdateKeepingOwnNamesSucceeds(s: Store, id: Id, dto: User)
    requires ValidStore(s) && id in s.users
    requires dto.username == None || dto.username == s.users[id].username
    requires dto.email == None || dto.email == s.users[id].email
    ensures Update(s, id, dto).0 == Success(Merge(s.users[id], dto))
  {
  }

  /** Deleting removes exactly the record asked for and no other, after which
      reading it fails. */
  lemma DeleteRemovesExactlyOne(s: Store, id: Id, other: Id)
    requires id in s.users && other != id
    ensures var s' := Delete(s, id).1;
      && Get(s', id) == Failure(UserNotFound)
      && Get(s', other) == Get(s, other)
  {
  }

  /** A created record can be read back under its new id. */
  lemma CreateThenGet(s: Store, dto: User)
    requires Create(s, dto).0.Success?
    ensures var r := Create(s, dto);
      Get(r.1, r.0.value.id.value) == Success(dto.(id := Some(s.nextId)))
  {
  }

  /** A record with `username` and `email` and nothing else. */
  function NewUser(username: string, email: Option<string>): User {
    User(None, Some(username), email, None, None, None, None, None)
  }

  /** A second record with a username already taken is refused with
      "username already exists", whatever its email. */
  lemma DuplicateUsernameScenario()
    ensures var first := Create(Store(map[], 1), NewUser("john_doe", Some("john@example.com")));
      && first.0.Success?
      && Create(first.1, NewUser("john_doe", Some("x@y.com"))).0 == Failure(UsernameTaken)
      && UsernameTaken.Reason() == "username already exists"
  {
    var first := Create(Store(map[], 1), NewUser("john_doe", Some("john@example.com")));
    assert first.1.users[1].username == Some("john_doe");
  }

  /** On an empty repository: create gets id 1, get finds it, delete removes
      it, and get then fails with "user not found"; id 999 was never there. */
  lemma LifecycleScenario()
    ensures Get(Store(map[], 1), 999) == Failure(UserNotFound)
    ensures var c := Create(Store(map[], 1), NewUser("a", None));
      && c.0.Success? && c.0.value.id == Some(1)
      && Get(c.1, 1).Success? && Get(c.1, 1).value.username == Some("a")
      && Delete(c.1, 1).0.Success?
      && Get(Delete(c.1, 1).1, 1) == Failure(UserNotFound)
  {
  }

  /** Patching only the first name changes nothing else. */
  lemma FirstNameOnlyScenario(s: Store, id: Id)
    requires ValidStore(s) && id in s.users && s.users[id].username == Some("john_doe")
    ensures var r := Update(s, id, User(None, None, None, Some("Johnny"), None, None, None, None));
      && r.0.Success?
      && r.0.value == s.users[id].(firstName := Some("Johnny"))
  {
  }

  /** The repository: the stored records and the id generator. */
  class UserRepository {
    var users: map<Id, User>
    var nextId: Id

    function Contents(): Store
      reads this
    {
      Store(users, nextId)
    }

    constructor ()
      ensures Contents() == Store(map[], 1)
    {
      users := map[];
      nextId := 1;
    }

    /** `findById`. */
    function FindById(id: Id): (r: Option<User>)
      reads this
      ensures r.Some? <==> id in users
      ensures r.Some? ==> r.value == users[id]
    {
      if id in users then Some(users[id]) else None
    }

    /** `findAll(pageable)`: the stored records of the page the repository
        selected, in its order. */
    method FindAll(page: seq<Id>) returns (r: seq<User>)
      requires forall i :: 0 <= i < |page| ==> page[i] in users
      ensures r == List(Contents(), page)
    {
      var stored := users;
      r := seq(|page|, i requires 0 <= i < |page| && page[i] in stored => stored[page[i]]);
    }

    /** `existsById`. */
    method ExistsById(id: Id) returns (b: bool)
      ensures b <==> id in users
    {
      b := id in users;
    }

    /** `existsByUsername`. */
    method ExistsByUsername(name: string) returns (b: bool)
      ensures b <==> UsernameInUse(users, name)
    {
      b := UsernameInUse(users, name);
    }

    /** `existsByEmail`. */
    method ExistsByEmail(email: string) returns (b: bool)
      ensures b <==> EmailInUse(users, email)
    {
      b := EmailInUse(users, email);
    }

    /** `findByUsername`: some stored record with that username, if any. */
    method FindByUsername(name: string) returns (r: Option<User>)
      ensures r.Some? <==> UsernameInUse(users, name)
      ensures r.Some? ==> r.value in users.Values && r.value.username == Some(name)
    {
      if UsernameInUse(users, name) {
        var id :| id in users && users[id].username == Some(name);
        r := Some(users[id]);
      } else {
        r := None;
      }
    }

    /** `findByEmail`: some stored record with that email, if any. */
    method FindByEmail(email: string) returns (r: Option<User>)
      ensures r.Some? <==> EmailInUse(users, email)
      ensures r.Some? ==> r.value in users.Values && r.value.email == Some(email)
    {
      if EmailInUse(users, email) {
        var id :| id in users && users[id].email == Some(email);
        r := Some(users[id]);
      } else {
        r := None;
      }
    }

    /** `save`. */
    method SaveUser(e: User) returns (saved: User)
      modifies this
      ensures (saved, Contents()) == Save(old(Contents()), e)
    {
      if e.id == None {
        saved := e.(id := Some(nextId));
        users := users[nextId := saved];
        nextId := nextId + 1;
      } else {
        saved := e;
        users := users[e.id.value := e];
      }
    }

    /** `deleteById`. */
    method DeleteById(id: Id)
      modifies this
      ensures users == old(users) - {id} && nextId == old(nextId)
    {
      users := users - {id};
    }
  }

  /** The service, holding its repository. */
  class UserService {
    const repository: UserRepository

    ghost predicate Valid()
      reads this, repository
    {
      ValidStore(repository.Contents())
    }

    constructor (repository: UserRepository)
      requires ValidStore(repository.Contents())
      ensures this.repository == repository && Valid()
    {
      this.repository := repository;
    }

    method CreateUser(dto: User) returns (r: Result<User, ServiceError>)
      requires Valid()
      modifies repository
      ensures Valid()
      ensures (r, repository.Contents()) == Create(old(repository.Contents()), dto)
    {
      if dto.username != None {
        var taken := repository.ExistsByUsername(dto.username.value);
        if taken {
          return Failure(UsernameTaken);
        }
      }
      if dto.email != None {
        var taken := repository.ExistsByEmail(dto.email.value);
        if taken {
          return Failure(EmailTaken);
        }
      }
      var entity := dto;
      entity := entity.(id := None);
      var saved := repository.SaveUser(entity);
      r := Success(saved);
    }

    method GetUser(id: Id) returns (r: Result<User, ServiceError>)
      ensures r == Get(repository.Contents(), id)
    {
      var found := repository.FindById(id);
      if found == None {
        return Failure(UserNotFound);
      }
      r := Success(found.value);
    }

    method ListUsers(page: seq<Id>) returns (r: seq<User>)
      requires forall i :: 0 <= i < |page| ==> page[i] in repository.users
      ensures r == List(repository.Contents(), page)
    {
      r := repository.FindAll(page);
    }

    method UpdateUser(id: Id, dto: User) returns (r: Result<User, ServiceError>)
      requires Valid()
      modifies repository
      ensures Valid()
      ensures (r, repository.Contents()) == Update(old(repository.Contents()), id, dto)
    {
      ghost var s := repository.Contents();
      var found := repository.FindById(id);
      if found == None {
        return Failure(UserNotFound);
      }
      var existing := found.value;
      ghost var stored := existing;
      if dto.username != None && dto.username != existing.username {
        var holder := repository.FindByUsername(dto.username.value);
        if holder != None {
          assert Update(s, id, dto) == (Failure(UsernameTaken), s);
          return Failure(UsernameTaken);
        }
        existing := existing.(username := dto.username);
      }
      assert !(ChangesUsername(stored, dto) && UsernameInUse(s.users, dto.username.value));
      if dto.email != None && dto.email != existing.email {
        var holder := repository.FindByEmail(dto.email.value);
        if holder != None {
          assert Update(s, id, dto) == (Failure(EmailTaken), s);
          return Failure(EmailTaken);
        }
        existing := existing.(email := dto.email);
      }
      assert !(ChangesEmail(stored, dto) && EmailInUse(s.users, dto.email.value));
      if dto.firstName != None {
        existing := existing.(firstName := dto.firstName);
      }
      if dto.lastName != None {
        existing := existing.(lastName := dto.lastName);
      }
      if dto.active != None {
        existing := existing.(active := dto.active);
      }
      assert existing == Merge(stored, dto);
      UpdateSucceeds(s, id, dto);
      var saved := repository.SaveUser(existing);
      r := Success(saved);
    }

    method DeleteUser(id: Id) returns (r: Result<(), ServiceError>)
      requires Valid()
      modifies repository
      ensures Valid()
      ensures (r, repository.Contents()) == Delete(old(repository.Contents()), id)
    {
      var present := repository.ExistsById(id);
      if !present {
        return Failure(UserNotFound);
      }
      repository.DeleteById(id);
      r := Success(());
    }
  }
}
