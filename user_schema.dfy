/** The `User` collection: its record shape and the lookups the services make on it. */
module UserSchema {
  import opened Wrappers

  /** A document `_id`, as the string the services pass around. */
  type Id = string

  /** One stored user; `_id` is the key the record is stored under. */
  datatype User = User(name: string, email: string, password: Option<string>, avatarUrl: Option<string>)

  /** A user together with its `_id`, as mongoose hands documents back. */
  datatype Document = Document(id: Id, record: User)

  /** The collection: `_id` to record. */
  type Store = map<Id, User>

  /** JavaScript truthiness of an optional string field: present and not the empty string. */
  predicate Truthy(s: Option<string>) {
    s.Some? && s.value != ""
  }

  /** The unique index on `email`: no two records share an email. */
  predicate EmailUnique(users: Store) {
    forall i, j :: i in users && j in users && users[i].email == users[j].email ==> i == j
  }

  predicate EmailTaken(users: Store, email: string) {
    exists id :: id in users && users[id].email == email
  }

  /** `findOne({ email })`: the id of the one record with that email, if any. */
  function FindByEmail(users: Store, email: string): (r: Option<Id>)
    requires EmailUnique(users)
    ensures r.Some? ==> r.value in users && users[r.value].email == email
    ensures r.None? <==> !EmailTaken(users, email)
  {
    if EmailTaken(users, email) then
      var id :| id in users && users[id].email == email; Some(id)
    else
      None
  }

  /** `findById(id)` */
  function FindById(users: Store, id: Id): (r: Option<Document>) {
    if id in users then Some(Document(id, users[id])) else None
  }

  /**
   * What a user-store call sees at one instant: the collection, and the failure the driver raises
   * for calls made now (connection lost, timeout), if any.
   */
  datatype Backend = Backend(users: Store, fault: Option<string>)
}
