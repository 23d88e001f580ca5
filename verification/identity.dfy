/**
  * The part of ASP.NET Core Identity the storefront relies on, as a value: users keyed by
  * their normalised (upper-cased) email — the options require unique emails
  * (API/Program.cs:22) — and the set of role names. Whether a store operation succeeds
  * for reasons outside this model (password policy, database errors) is an input.
  */
module Identity {
  import opened Wrappers
  import opened Text
  import opened Entities

  /** A user with the names of the roles it belongs to. */
  datatype UserRecord = UserRecord(user: User, roles: set<string>)

  datatype Store = Store(users: map<string, UserRecord>, roles: set<string>)

  /** The lookup normaliser: upper-case, as `UpperInvariantLookupNormalizer` does (ASCII only). */
  function NormalizeKey(s: string): string
  {
    ToUpper(s)
  }

  /** Every user sits under its own normalised email, and its user name is its email (both creation paths set them equal). */
  predicate WellFormed(store: Store)
  {
    forall k :: k in store.users ==>
      && k == NormalizeKey(store.users[k].user.email)
      && store.users[k].user.userName == store.users[k].user.email
  }

  /** `FindByEmailAsync`: the user whose normalised email matches. */
  function FindByEmail(store: Store, email: string): (r: Option<UserRecord>)
    ensures r.Some? <==> NormalizeKey(email) in store.users
    ensures r.Some? ==> r.value == store.users[NormalizeKey(email)]
  {
    var k := NormalizeKey(email);
    if k in store.users then Some(store.users[k]) else None
  }

  /** `Users.FirstOrDefault(x => x.UserName == name)`: an exact match of the user name. */
  function FindByUserName(store: Store, name: string): (r: Option<string>)
    ensures r.Some? ==> r.value == NormalizeKey(name) && r.value in store.users && store.users[r.value].user.userName == name
  {
    var k := NormalizeKey(name);
    if k in store.users && store.users[k].user.userName == name then Some(k) else None
  }

  /** In a well-formed store the keyed lookup finds every user with that exact name. */
  lemma FindByUserNameComplete(store: Store, name: string, k: string)
    requires WellFormed(store)
    requires k in store.users && store.users[k].user.userName == name
    ensures FindByUserName(store, name) == Some(k)
  {
  }

  /** `CreateAsync`: fails when the outcome says so or the normalised email is taken; otherwise adds the user with no roles. */
  function CreateUser(store: Store, user: User, ok: bool): (r: Option<Store>)
    ensures r.Some? <==> ok && NormalizeKey(user.email) !in store.users
    ensures r.Some? ==> r.value.roles == store.roles
    ensures r.Some? ==> r.value.users == store.users[NormalizeKey(user.email) := UserRecord(user, {})]
  {
    var k := NormalizeKey(user.email);
    if ok && k !in store.users then Some(store.(users := store.users[k := UserRecord(user, {})])) else None
  }

  /** `AddToRoleAsync`: the role must exist and the user must not be in it yet; other failures are an input. */
  function AddToRole(store: Store, key: string, role: string, ok: bool): (r: Option<Store>)
    requires key in store.users
    ensures r.Some? <==> ok && role in store.roles && role !in store.users[key].roles
    ensures r.Some? ==> r.value.roles == store.roles
    ensures r.Some? ==> r.value.users == store.users[key := store.users[key].(roles := store.users[key].roles + {role})]
  {
    var rec := store.users[key];
    if ok && role in store.roles && role !in rec.roles
    then Some(store.(users := store.users[key := rec.(roles := rec.roles + {role})]))
    else None
  }

  /** A store change leaves every other user as it was. */
  predicate OthersUnchanged(before: Store, after: Store, key: string)
  {
    forall k :: k in before.users && k != key ==> k in after.users && after.users[k] == before.users[k]
  }
}
