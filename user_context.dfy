/**
 * The user store of the application: the registered accounts, the logged-in
 * account and the working list of codes, mirrored into the browser's key/value
 * storage. Each operation is one atomic step that also carries out what the two
 * storage/sync effects of the provider do once the state has changed.
 */
module UserContext {
  import opened Types
  import opened Accounts
  import opened QrOps

  /** What a storage key holds, already decoded; `Other` stands for any unrelated value. */
  datatype Stored = UsersBlob(users: seq<User>) | SessionBlob(user: User) | Other(raw: string)

  const UsersKey: string := "users"
  const CurrentUserKey: string := "currentUser"

  /** The lazy initialiser of `users`: the stored list, or none at all. */
  function LoadUsers(storage: map<string, Stored>): seq<User> {
    if UsersKey in storage && storage[UsersKey].UsersBlob? then storage[UsersKey].users else []
  }

  /** The lazy initialiser of `currentUser`: the stored account, or nobody. */
  function LoadSession(storage: map<string, Stored>): Option<User> {
    if CurrentUserKey in storage && storage[CurrentUserKey].SessionBlob? then Some(storage[CurrentUserKey].user)
    else None
  }

  /** The lazy initialiser of the working list: `currentUser ? currentUser.qrData || [] : []`. */
  function SessionQrs(current: Option<User>): seq<QR> {
    if current.Some? then QrsOf(current.value) else []
  }

  /**
   * What the two effects write: the account list always, the logged-in account
   * when there is one. Loading the result gives back exactly what was written,
   * and no other key is touched.
   */
  function Persist(storage: map<string, Stored>, users: seq<User>, current: Option<User>): (s: map<string, Stored>)
    ensures LoadUsers(s) == users
    ensures LoadSession(s) == if current.Some? then current else LoadSession(storage)
    ensures s.Keys == storage.Keys + {UsersKey} + (if current.Some? then {CurrentUserKey} else {})
    ensures forall k :: k in storage && k != UsersKey && k != CurrentUserKey ==> s[k] == storage[k]
  {
    var withUsers := storage[UsersKey := UsersBlob(users)];
    if current.Some? then withUsers[CurrentUserKey := SessionBlob(current.value)] else withUsers
  }

  /** `{ ...currentUser, qrData: updatedQrData }`. */
  function WithQrs(u: User, qrs: seq<QR>): (r: User)
    ensures r.userName == u.userName && r.password == u.password && QrsOf(r) == qrs
  {
    u.(qrData := Some(qrs))
  }

  /**
   * The account list after `updateUserQrData(qrs)`: with somebody logged in, every
   * entry of that name becomes the logged-in account carrying `qrs`; without, nothing changes.
   */
  function WriteBack(users: seq<User>, current: Option<User>, qrs: seq<QR>): (r: seq<User>)
    ensures |r| == |users|
    ensures current.None? ==> r == users
    ensures current.Some? ==> forall i :: 0 <= i < |r| ==>
      if users[i].userName == current.value.userName
      then r[i] == WithQrs(current.value, qrs) && QrsOf(r[i]) == qrs
      else r[i] == users[i]
    ensures forall i :: 0 <= i < |r| ==> r[i].userName == users[i].userName
    ensures UniqueNames(users) ==> UniqueNames(r)
  {
    if current.Some? then
      var u := current.value;
      ReplaceKeepsNames(users, u.userName, WithQrs(u, qrs));
      ReplaceByName(users, u.userName, WithQrs(u, qrs))
    else users
  }

  /** The logged-in account after `updateUserQrData(qrs)`. */
  function WriteBackSession(current: Option<User>, qrs: seq<QR>): (r: Option<User>)
    ensures r.Some? == current.Some?
    ensures r.Some? ==> r.value.userName == current.value.userName && r.value.password == current.value.password
    ensures r.Some? ==> QrsOf(r.value) == qrs
  {
    if current.Some? then Some(WithQrs(current.value, qrs)) else None
  }

  class Store {
    var users: seq<User>
    var currentUser: Option<User>
    var qrData: seq<QR>
    var storage: map<string, Stored>

    /** Storage holds the account list and, exactly when somebody is logged in, that account: a reload restores both. */
    ghost predicate Mirrored()
      reads this
    {
      UsersKey in storage && storage[UsersKey] == UsersBlob(users) && LoadSession(storage) == currentUser
    }

    /** The mirror holds, and while somebody is logged in the working list is that account's list. */
    ghost predicate Valid()
      reads this
    {
      Mirrored() && (currentUser.Some? ==> qrData == QrsOf(currentUser.value))
    }

    /** Mounting the provider: the lazy initialisers, then the first run of both effects. */
    constructor (saved: map<string, Stored>)
      ensures users == LoadUsers(saved) && currentUser == LoadSession(saved)
      ensures qrData == SessionQrs(currentUser)
      ensures storage == Persist(saved, users, currentUser)
      ensures Valid()
    {
      users := LoadUsers(saved);
      currentUser := LoadSession(saved);
      qrData := SessionQrs(LoadSession(saved));
      storage := Persist(saved, LoadUsers(saved), LoadSession(saved));
    }

    /** `signupUser`: append the account unless its name is taken; `taken` is the "already exists" notice. */
    method SignupUser(newUser: User) returns (taken: bool)
      requires Valid()
      modifies this
      ensures Valid()
      ensures taken == NameTaken(old(users), newUser.userName)
      ensures users == Register(old(users), newUser)
      ensures taken ==> storage == old(storage)
      ensures !taken ==> storage == old(storage)[UsersKey := UsersBlob(users)]
      ensures currentUser == old(currentUser) && qrData == old(qrData)
    {
      taken := NameTaken(users, newUser.userName);
      if !taken {
        users := users + [newUser];
        storage := storage[UsersKey := UsersBlob(users)];
      }
    }

    /** `loginUser`: log in as the first account matching both credentials, if any. */
    method LoginUser(userName: string, password: string) returns (ok: bool)
      requires Valid()
      modifies this
      ensures Valid()
      ensures ok <==> exists i :: 0 <= i < |users| && Matches(users[i], userName, password)
      ensures users == old(users)
      ensures ok ==> exists i :: IsFirstMatch(users, i, userName, password) && currentUser == Some(users[i])
      ensures ok ==> qrData == SessionQrs(currentUser)
      ensures ok ==> storage == old(storage)[CurrentUserKey := SessionBlob(currentUser.value)]
      ensures !ok ==> currentUser == old(currentUser) && qrData == old(qrData) && storage == old(storage)
    {
      var found := FindIndex(users, userName, password);
      match found
      case Some(i) =>
        var user := users[i];
        currentUser := Some(user);
        storage := storage[CurrentUserKey := SessionBlob(user)];
        qrData := QrsOf(user);
        ok := true;
      case None =>
        ok := false;
    }

    /** `logoutUser`: end the session and drop its stored copy; the accounts and the working list stay. */
    method LogoutUser()
      requires Valid()
      modifies this
      ensures Valid()
      ensures currentUser.None?
      ensures storage == old(storage) - {CurrentUserKey}
      ensures users == old(users) && qrData == old(qrData)
    {
      currentUser := None;
      storage := storage - {CurrentUserKey};
    }

    /**
     * `updateUserQrData`: with somebody logged in, put the new working list into
     * that account and into its entry of the account list, and let both effects
     * store them; without a session nothing happens.
     */
    method UpdateUserQrData(updated: seq<QR>)
      requires Mirrored() && qrData == updated
      modifies this
      ensures Valid()
      ensures qrData == updated
      ensures currentUser == WriteBackSession(old(currentUser), updated)
      ensures users == WriteBack(old(users), old(currentUser), updated)
      ensures storage == if old(currentUser).Some? then Persist(old(storage), users, currentUser) else old(storage)
    {
      if currentUser.Some? {
        var updatedUser := WithQrs(currentUser.value, updated);
        users := ReplaceByName(users, currentUser.value.userName, updatedUser);
        currentUser := Some(updatedUser);
        storage := Persist(storage, users, currentUser);
      }
    }

    /** `addQr`: append one record, then write back. */
    method AddQr(newQr: QR)
      requires Valid()
      modifies this
      ensures Valid()
      ensures qrData == old(qrData) + [newQr]
      ensures currentUser == WriteBackSession(old(currentUser), qrData)
      ensures users == WriteBack(old(users), old(currentUser), qrData)
      ensures storage == if old(currentUser).Some? then Persist(old(storage), users, currentUser) else old(storage)
    {
      qrData := qrData + [newQr];
      UpdateUserQrData(qrData);
    }

    /** `deleteQr`: drop every record carrying `id`, then write back. */
    method DeleteQr(id: string)
      requires Valid()
      modifies this
      ensures Valid()
      ensures qrData == RemoveId(old(qrData), id)
      ensures currentUser == WriteBackSession(old(currentUser), qrData)
      ensures users == WriteBack(old(users), old(currentUser), qrData)
      ensures storage == if old(currentUser).Some? then Persist(old(storage), users, currentUser) else old(storage)
    {
      qrData := RemoveId(qrData, id);
      UpdateUserQrData(qrData);
    }

    /** `updateQr`: replace every record carrying `id` by `updatedQr`, then write back. */
    method UpdateQr(id: string, updatedQr: QR)
      requires Valid()
      modifies this
      ensures Valid()
      ensures qrData == ReplaceId(old(qrData), id, updatedQr)
      ensures currentUser == WriteBackSession(old(currentUser), qrData)
      ensures users == WriteBack(old(users), old(currentUser), qrData)
      ensures storage == if old(currentUser).Some? then Persist(old(storage), users, currentUser) else old(storage)
    {
      qrData := ReplaceId(qrData, id, updatedQr);
      UpdateUserQrData(qrData);
    }
  }
}
