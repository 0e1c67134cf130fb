/**
 * `UsersService`: create, look up, update and remove users in the collection. The service holds
 * the collection and keeps the unique-email invariant across every operation.
 */
module Users {
  import opened Wrappers
  import opened Http
  import opened UserSchema

  const EMAIL_TAKEN := "Já existe um usuário com este e-mail"
  const CREATE_FAILED := "Ocorreu um erro ao tentar criar usuário"
  const REQUEST_FAILED := "Ocorreu um erro"
  const REMOVED := "usuário removido"

  /** The create body; `create` overwrites its `password` in place. */
  class CreateUserDto {
    var name: string
    var email: string
    var password: Option<string>
    var avatarUrl: Option<string>

    constructor (name: string, email: string, password: Option<string>, avatarUrl: Option<string>)
      ensures this.name == name && this.email == email
      ensures this.password == password && this.avatarUrl == avatarUrl
    {
      this.name := name;
      this.email := email;
      this.password := password;
      this.avatarUrl := avatarUrl;
    }
  }

  /** The update body: every field may be left out. */
  datatype UserPatch = UserPatch(
    name: Option<string>, email: Option<string>, password: Option<string>, avatarUrl: Option<string>)

  function Override<T>(current: T, supplied: Option<T>): (value: T) {
    if supplied.Some? then supplied.value else current
  }

  /** The record after `$set` of the supplied fields; the password is stored as supplied, unhashed. */
  function Patched(user: User, patch: UserPatch): (patched: User) {
    User(
      Override(user.name, patch.name), Override(user.email, patch.email),
      if patch.password.Some? then patch.password else user.password,
      if patch.avatarUrl.Some? then patch.avatarUrl else user.avatarUrl)
  }

  /**
   * The password `create` stores. `if (password)` hashes only a truthy one into the body;
   * anything else is stored as given.
   */
  function StoredPassword(password: Option<string>, hash: string -> Attempt<string>): (stored: Attempt<Option<string>>) {
    if Truthy(password) then
      match hash(password.value)
      case Raised(cause) => Raised(cause)
      case Returned(h) => Returned(Some(h))
    else
      Returned(password)
  }

  /**
   * What `createdUser.save()` accepts: the schema's required `name` and `email` are non-empty
   * strings (mongoose's required check on a String), and the new `_id` is not taken (duplicate key).
   */
  predicate Saves(users: Store, id: Id, record: User) {
    record.name != "" && record.email != "" && id !in users
  }

  /** An update whose email belongs to another record violates the unique index. */
  predicate EmailClash(users: Store, id: Id, patch: UserPatch) {
    patch.email.Some? && exists other :: other in users && other != id && users[other].email == patch.email.value
  }

  /**
   * The catch of `create`: any HttpException is rethrown as it is, anything else becomes a 500.
   * What escapes is always an HttpException, and its status is the thrown one's when that had one.
   */
  function CreateCatch(e: Exception): (r: Exception)
    ensures IsHttpException(e) ==> r == e
    ensures IsHttpException(r)
    ensures Status(r) == (if IsHttpException(e) then Status(e) else INTERNAL_SERVER_ERROR)
  {
    if IsHttpException(e) then e else HttpError(CREATE_FAILED, INTERNAL_SERVER_ERROR)
  }

  /** Catching what `create` already rethrew changes nothing. */
  lemma CreateCatchIdempotent(e: Exception)
    ensures CreateCatch(CreateCatch(e)) == CreateCatch(e)
  {
  }

  /** An update that supplies no field leaves the record as it was. */
  lemma EmptyPatchIsIdentity(user: User)
    ensures Patched(user, UserPatch(None, None, None, None)) == user
  {
  }

  /** Applying the same update twice is applying it once. */
  lemma PatchIdempotent(user: User, patch: UserPatch)
    ensures Patched(Patched(user, patch), patch) == Patched(user, patch)
  {
  }

  /** A later update overrides an earlier one field by field: the later value wins where supplied. */
  lemma PatchOverrides(user: User, first: UserPatch, second: UserPatch)
    ensures Patched(Patched(user, first), second) == Patched(user, UserPatch(
      if second.name.Some? then second.name else first.name,
      if second.email.Some? then second.email else first.email,
      if second.password.Some? then second.password else first.password,
      if second.avatarUrl.Some? then second.avatarUrl else first.avatarUrl))
  {
  }

  datatype Created = Created(success: bool, user: Document)
  datatype Listing = Listing(success: bool, users: Store)
  datatype Found = Found(success: bool, user: Option<Document>)
  datatype Removed = Removed(success: bool, msg: string)

  // ---------------------------------------------------------------------------------------------
  // The invariant each write keeps

  /** Inserting a record whose email is free under a fresh id keeps emails unique. */
  lemma InsertKeepsEmailUnique(users: Store, id: Id, record: User)
    requires EmailUnique(users) && id !in users && !EmailTaken(users, record.email)
    ensures EmailUnique(users[id := record])
    ensures |users[id := record]| == |users| + 1
  {
  }

  /** Overwriting one record with an update that clashes with no other email keeps emails unique. */
  lemma UpdateKeepsEmailUnique(users: Store, id: Id, patch: UserPatch)
    requires EmailUnique(users) && id in users && !EmailClash(users, id, patch)
    ensures EmailUnique(users[id := Patched(users[id], patch)])
  {
  }

  /** Removing a record keeps emails unique and touches no other record. */
  lemma RemoveKeepsEmailUnique(users: Store, id: Id)
    requires EmailUnique(users)
    ensures EmailUnique(users - {id})
    ensures id !in users - {id}
    ensures forall other :: other in users && other != id ==> other in users - {id} && (users - {id})[other] == users[other]
  {
  }

  /** What `create` stores as the password, case by case. */
  lemma StoredPasswordCases(password: Option<string>, hash: string -> Attempt<string>)
    ensures password.None? ==> StoredPassword(password, hash) == Returned(None)
    ensures password == Some("") ==> StoredPassword(password, hash) == Returned(Some(""))
    ensures Truthy(password) && hash(password.value).Returned? ==>
      StoredPassword(password, hash) == Returned(Some(hash(password.value).value))
    ensures StoredPassword(password, hash).Raised? <==> Truthy(password) && hash(password.value).Raised?
  {
  }

  class UsersService {
    /** The collection, `_id` to record */
    var users: Store
    /** The failure the driver raises for calls made now, if the database is unreachable */
    var fault: Option<string>

    ghost predicate Valid()
      reads this
    {
      EmailUnique(users)
    }

    constructor (users: Store, fault: Option<string>)
      requires EmailUnique(users)
      ensures Valid() && this.users == users && this.fault == fault
    {
      this.users := users;
      this.fault := fault;
    }

    /** The collection as the auth service reads it. */
    function Snapshot(): Backend
      reads this
    {
      Backend(users, fault)
    }

    /** `findOne({ email })`, with no catch: a store failure is passed to the caller. */
    method GetByEmail(email: string) returns (r: Outcome<Option<Document>>)
      requires Valid()
      ensures fault.Some? ==> r == Thrown(Error(fault.value))
      ensures fault.None? ==> r.Ok? && (r.value.Some? <==> EmailTaken(users, email))
      ensures r.Ok? && r.value.Some? ==>
        && r.value.value.id in users && users[r.value.value.id] == r.value.value.record
        && r.value.value.record.email == email
    {
      if fault.Some? {
        return Thrown(Error(fault.value));
      }
      var found := FindByEmail(users, email);
      r := Ok(if found.Some? then Some(Document(found.value, users[found.value])) else None);
    }

    /**
     * `create`: refuse a taken email with CONFLICT, hash a truthy password into the body, then
     * save one new record under the `_id` the driver generated (`newId`). All of it runs inside
     * one try block whose catch is `CreateCatch`.
     */
    method Create(dto: CreateUserDto, hash: string -> Attempt<string>, newId: Id) returns (r: Outcome<Created>)
      requires Valid()
      modifies this, dto
      ensures Valid() && fault == old(fault)
      ensures dto.name == old(dto.name) && dto.email == old(dto.email) && dto.avatarUrl == old(dto.avatarUrl)
      ensures old(fault).Some? ==>
        && r == Thrown(HttpError(CREATE_FAILED, INTERNAL_SERVER_ERROR))
        && users == old(users) && dto.password == old(dto.password)
      ensures old(fault).None? && EmailTaken(old(users), old(dto.email)) ==>
        && r == Thrown(HttpError(EMAIL_TAKEN, CONFLICT))
        && users == old(users) && dto.password == old(dto.password)
      ensures old(fault).None? && !EmailTaken(old(users), old(dto.email)) &&
              StoredPassword(old(dto.password), hash).Raised? ==>
        && r == Thrown(HttpError(CREATE_FAILED, INTERNAL_SERVER_ERROR))
        && users == old(users) && dto.password == old(dto.password)
      ensures old(fault).None? && !EmailTaken(old(users), old(dto.email)) &&
              StoredPassword(old(dto.password), hash).Returned? ==>
        var record := User(old(dto.name), old(dto.email), StoredPassword(old(dto.password), hash).value, old(dto.avatarUrl));
        && dto.password == record.password
        && (Saves(old(users), newId, record) ==>
             && users == old(users)[newId := record] && |users| == |old(users)| + 1
             && r == Ok(Created(true, Document(newId, record))))
        && (!Saves(old(users), newId, record) ==>
             users == old(users) && r == Thrown(HttpError(CREATE_FAILED, INTERNAL_SERVER_ERROR)))
    {
      var oldUser := GetByEmail(dto.email);
      if oldUser.Thrown? {
        return Thrown(CreateCatch(oldUser.error));
      }
      if oldUser.value.Some? {
        return Thrown(CreateCatch(HttpError(EMAIL_TAKEN, CONFLICT)));
      }
      if Truthy(dto.password) {
        var hashed := hash(dto.password.value);
        if hashed.Raised? {
          return Thrown(CreateCatch(Error(hashed.cause)));
        }
        dto.password := Some(hashed.value);
      }
      var record := User(dto.name, dto.email, dto.password, dto.avatarUrl);
      if !Saves(users, newId, record) {
        // a validation error or a duplicate key, neither of them an HttpException
        return Thrown(CreateCatch(Error("save rejected")));
      }
      InsertKeepsEmailUnique(users, newId, record);
      users := users[newId := record];
      r := Ok(Created(true, Document(newId, record)));
    }

    /** `findAll`: every record, or a 500 when the store fails. */
    method FindAll() returns (r: Outcome<Listing>)
      ensures fault.Some? ==> r == Thrown(HttpError(REQUEST_FAILED, INTERNAL_SERVER_ERROR))
      ensures fault.None? ==> r == Ok(Listing(true, users))
    {
      if fault.Some? {
        return Thrown(HttpError(REQUEST_FAILED, INTERNAL_SERVER_ERROR));
      }
      r := Ok(Listing(true, users));
    }

    /** `findOne`: success even for an unknown id, with no user. */
    method FindOne(id: Id) returns (r: Outcome<Found>)
      ensures fault.Some? ==> r == Thrown(HttpError(REQUEST_FAILED, INTERNAL_SERVER_ERROR))
      ensures fault.None? ==> r.Ok? && r.value.success
      ensures fault.None? ==> (r.value.user.Some? <==> id in users)
      ensures r.Ok? && r.value.user.Some? ==> r.value.user.value == Document(id, users[id])
    {
      if fault.Some? {
        return Thrown(HttpError(REQUEST_FAILED, INTERNAL_SERVER_ERROR));
      }
      r := Ok(Found(true, FindById(users, id)));
    }

    /**
     * `findByIdAndUpdate(id, patch, { new: true })`: only the target record changes, only in the
     * supplied fields, and the record after the update is returned. An unknown id changes nothing
     * and still reports success; an email taken by another record is a duplicate-key failure.
     */
    method Update(id: Id, patch: UserPatch) returns (r: Outcome<Found>)
      requires Valid()
      modifies this
      ensures Valid() && fault == old(fault)
      ensures old(fault).Some? ==>
        r == Thrown(HttpError(REQUEST_FAILED, INTERNAL_SERVER_ERROR)) && users == old(users)
      ensures old(fault).None? && id !in old(users) ==>
        r == Ok(Found(true, None)) && users == old(users)
      ensures old(fault).None? && id in old(users) && EmailClash(old(users), id, patch) ==>
        r == Thrown(HttpError(REQUEST_FAILED, INTERNAL_SERVER_ERROR)) && users == old(users)
      ensures old(fault).None? && id in old(users) && !EmailClash(old(users), id, patch) ==>
        && users == old(users)[id := Patched(old(users)[id], patch)]
        && r == Ok(Found(true, Some(Document(id, Patched(old(users)[id], patch)))))
    {
      if fault.Some? {
        return Thrown(HttpError(REQUEST_FAILED, INTERNAL_SERVER_ERROR));
      }
      if id !in users {
        return Ok(Found(true, None));
      }
      if EmailClash(users, id, patch) {
        return Thrown(HttpError(REQUEST_FAILED, INTERNAL_SERVER_ERROR));
      }
      UpdateKeepsEmailUnique(users, id, patch);
      var updated := Patched(users[id], patch);
      users := users[id := updated];
      r := Ok(Found(true, Some(Document(id, updated))));
    }

    /** `findByIdAndDelete`: afterwards the id is absent; success whether or not it was there. */
    method Remove(id: Id) returns (r: Outcome<Removed>)
      requires Valid()
      modifies this
      ensures Valid() && fault == old(fault)
      ensures old(fault).Some? ==>
        r == Thrown(HttpError(REQUEST_FAILED, INTERNAL_SERVER_ERROR)) && users == old(users)
      ensures old(fault).None? ==> r == Ok(Removed(true, REMOVED)) && users == old(users) - {id}
    {
      if fault.Some? {
        return Thrown(HttpError(REQUEST_FAILED, INTERNAL_SERVER_ERROR));
      }
      RemoveKeepsEmailUnique(users, id);
      users := users - {id};
      r := Ok(Removed(true, REMOVED));
    }
  }
}
