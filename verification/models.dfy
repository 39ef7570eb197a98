/**
 * The database schema: the `User` and `Item` tables, their unique and
 * non-null column constraints, password hashing and the user loader.
 *
 * Password hashing is abstract. A stored hash is a salt and a digest, and
 * the key-derivation function that maps a salt and a password to a digest
 * is a parameter `kdf`; the random salt is supplied by the caller.
 */
module Models {
  import opened Wrappers
  import opened Strings

  type Kdf = (nat, string) -> nat

  /** What `generate_password_hash` stores: no string, only a salt and a digest. */
  datatype PasswordHash = PasswordHash(salt: nat, digest: nat)

  /** `generate_password_hash`: a salted one-way hash of the password. */
  function GeneratePasswordHash(kdf: Kdf, salt: nat, password: string): (h: PasswordHash)
    ensures h.salt == salt
    ensures CheckPasswordHash(kdf, h, password)
  {
    PasswordHash(salt, kdf(salt, password))
  }

  /** `check_password_hash`: re-derive the digest with the stored salt and compare. */
  predicate CheckPasswordHash(kdf: Kdf, h: PasswordHash, password: string)
  {
    kdf(h.salt, password) == h.digest
  }

  /** The hash distinguishes passwords: two different passwords never give the same digest under one salt. */
  ghost predicate Injective(kdf: Kdf)
  {
    forall salt: nat, p: string, q: string :: kdf(salt, p) == kdf(salt, q) ==> p == q
  }

  /** A hash made from `p` verifies `p` and, for an injective `kdf`, nothing else. */
  lemma CheckPasswordHashExact(kdf: Kdf, salt: nat, p: string, q: string)
    requires Injective(kdf)
    ensures CheckPasswordHash(kdf, GeneratePasswordHash(kdf, salt, p), q) <==> q == p
  {
  }

  /**
   * A row of the `user` table together with its ORM object. The primary
   * key, the username and the email are never changed after the row is
   * created; the password hash and the last-seen time are updated in place.
   */
  class User {
    const id: nat
    const username: string
    const email: string
    var passwordHash: Option<PasswordHash>
    var lastSeen: Option<nat>

    /** `User(username=..., email=...)`: no password hash and no last-seen time yet. */
    constructor (id: nat, username: string, email: string)
      ensures this.id == id && this.username == username && this.email == email
      ensures passwordHash == None && lastSeen == None
    {
      this.id := id;
      this.username := username;
      this.email := email;
      passwordHash := None;
      lastSeen := None;
    }

    /** `set_password`: overwrite the stored hash with a fresh hash of `password`, nothing else. */
    method SetPassword(kdf: Kdf, salt: nat, password: string)
      modifies this
      ensures passwordHash == Some(GeneratePasswordHash(kdf, salt, password))
      ensures lastSeen == old(lastSeen)
      ensures CheckPassword(kdf, password)
    {
      passwordHash := Some(GeneratePasswordHash(kdf, salt, password));
    }

    /** `check_password`: defined once a password hash has been set. */
    predicate CheckPassword(kdf: Kdf, password: string)
      requires passwordHash.Some?
      reads this
      ensures CheckPassword(kdf, password) <==>
        passwordHash.value == GeneratePasswordHash(kdf, passwordHash.value.salt, password)
    {
      CheckPasswordHash(kdf, passwordHash.value, password)
    }
  }

  /** A row of the `item` table; items are never updated in place. */
  datatype Item = Item(id: nat, name: string, price: int, userId: nat)

  /** `filter_by(...).first()` on the `user` table: the first stored user that `matches`, if any. */
  function FirstUser(users: seq<User>, matches: User -> bool): (r: Option<User>)
    ensures r.Some? <==> exists u :: u in users && matches(u)
    ensures r.Some? ==> r.value in users && matches(r.value)
  {
    if users == [] then None
    else if matches(users[0]) then Some(users[0])
    else FirstUser(users[1..], matches)
  }

  /** `User.query.get(id)`, the user loader: the user whose primary key is `id`, if any. */
  function LoadUser(users: seq<User>, id: nat): (r: Option<User>)
    ensures r.Some? <==> exists u :: u in users && u.id == id
    ensures r.Some? ==> r.value in users && r.value.id == id
  {
    FirstUser(users, (u: User) => u.id == id)
  }

  /** `User.query.filter_by(username=name).first()`: exact, case-sensitive match. */
  function FindByUsername(users: seq<User>, name: string): (r: Option<User>)
    ensures r.Some? <==> exists u :: u in users && u.username == name
    ensures r.Some? ==> r.value in users && r.value.username == name
  {
    FirstUser(users, (u: User) => u.username == name)
  }

  /** `User.query.filter_by(email=email).first()`: exact match on the stored email. */
  function FindByEmail(users: seq<User>, email: string): (r: Option<User>)
    ensures r.Some? <==> exists u :: u in users && u.email == email
    ensures r.Some? ==> r.value in users && r.value.email == email
  {
    FirstUser(users, (u: User) => u.email == email)
  }

  /**
   * The key SQLite gives a new row of a table whose primary key is a plain
   * INTEGER column, from the keys present: one more than the largest, or 1
   * for an empty table. A key freed by deleting the largest row is handed
   * out again.
   */
  function NextId(keys: seq<nat>): (r: nat)
    ensures r >= 1
    ensures forall i :: 0 <= i < |keys| ==> keys[i] < r
    ensures keys == [] ==> r == 1
    ensures keys != [] ==> r - 1 in keys
  {
    if keys == [] then 1
    else
      var rest := NextId(keys[1..]);
      if keys[0] + 1 > rest then keys[0] + 1 else rest
  }

  function NextUserId(users: seq<User>): (r: nat)
    ensures r >= 1
    ensures forall u :: u in users ==> u.id < r
    ensures users == [] ==> r == 1
    ensures users != [] ==> exists u :: u in users && u.id == r - 1
  {
    var keys := seq(|users|, i requires 0 <= i < |users| => users[i].id);
    assert forall u :: u in users ==> exists i :: 0 <= i < |users| && users[i] == u && keys[i] == u.id;
    NextId(keys)
  }

  function NextItemId(items: seq<Item>): (r: nat)
    ensures r >= 1
    ensures forall x :: x in items ==> x.id < r
    ensures items == [] ==> r == 1
    ensures items != [] ==> exists x :: x in items && x.id == r - 1
  {
    var keys := seq(|items|, i requires 0 <= i < |items| => items[i].id);
    assert forall x :: x in items ==> exists i :: 0 <= i < |items| && items[i] == x && keys[i] == x.id;
    NextId(keys)
  }

  /** Primary keys in ascending order: the order rows are stored and listed in. */
  predicate UserIdsAscending(users: seq<User>)
  {
    forall i, j :: 0 <= i < j < |users| ==> users[i].id < users[j].id
  }

  predicate ItemIdsAscending(items: seq<Item>)
  {
    forall i, j :: 0 <= i < j < |items| ==> items[i].id < items[j].id
  }

  /** `username` is declared unique. */
  predicate UniqueUsernames(users: seq<User>)
  {
    forall i, j :: 0 <= i < j < |users| ==> users[i].username != users[j].username
  }

  /** `email` is declared unique. */
  predicate UniqueEmails(users: seq<User>)
  {
    forall i, j :: 0 <= i < j < |users| ==> users[i].email != users[j].email
  }

  /** `name` is declared unique. */
  predicate UniqueItemNames(items: seq<Item>)
  {
    forall i, j :: 0 <= i < j < |items| ==> items[i].name != items[j].name
  }

  /** `user_id` is non-null and names an existing user. */
  predicate OwnersExist(users: seq<User>, items: seq<Item>)
  {
    forall x :: x in items ==> exists u :: u in users && u.id == x.userId
  }

  /** Emails are stored lower-cased. */
  predicate EmailsLowercase(users: seq<User>)
  {
    forall u :: u in users ==> Lower(u.email) == u.email
  }

  /** The constraints on the `user` columns that never change once a row exists. */
  predicate UsersWellFormed(users: seq<User>)
  {
    UserIdsAscending(users) && UniqueUsernames(users) && UniqueEmails(users) && EmailsLowercase(users)
  }

  /** Every stored user has a password hash. */
  ghost predicate HashesSet(users: seq<User>)
    reads users
  {
    forall u :: u in users ==> u.passwordHash.Some?
  }

  /** The constraints on the `item` table. */
  predicate ItemsWellFormed(items: seq<Item>)
  {
    ItemIdsAscending(items) && UniqueItemNames(items)
  }

  /** Inserting a user with a larger key, a new username and a new lower-cased email keeps the constraints. */
  lemma AppendUserWellFormed(users: seq<User>, u: User)
    requires UsersWellFormed(users)
    requires forall v :: v in users ==> v.id < u.id && v.username != u.username && v.email != u.email
    requires Lower(u.email) == u.email
    ensures UsersWellFormed(users + [u])
  {
  }

  /** Inserting an item with a larger key and a new name keeps the constraints. */
  lemma AppendItemWellFormed(items: seq<Item>, x: Item)
    requires ItemsWellFormed(items)
    requires forall y :: y in items ==> y.id < x.id && y.name != x.name
    ensures ItemsWellFormed(items + [x])
  {
  }

  /** Deleting one item keeps the constraints. */
  lemma RemoveItemWellFormed(items: seq<Item>, k: nat)
    requires ItemsWellFormed(items)
    requires k < |items|
    ensures ItemsWellFormed(items[..k] + items[k + 1..])
  {
  }
}
