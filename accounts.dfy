/**
 * The pure list work inside the account operations of the user store:
 * the duplicate check of sign-up (`some`), the credential search of log-in (`find`)
 * and the write-back of a changed account into the list (`map`).
 */
module Accounts {
  import opened Types

  /** No two accounts share a user name. */
  predicate UniqueNames(users: seq<User>) {
    forall i, j :: 0 <= i < j < |users| ==> users[i].userName != users[j].userName
  }

  /** `users.some(user => user.userName === name)`. */
  function NameTaken(users: seq<User>, name: string): (taken: bool)
    ensures taken <==> exists i :: 0 <= i < |users| && users[i].userName == name
  {
    if users == [] then false
    else users[0].userName == name || NameTaken(users[1..], name)
  }

  /** Sign-up on the account list: append unless the name is already taken. */
  function Register(users: seq<User>, newUser: User): (r: seq<User>)
    ensures NameTaken(r, newUser.userName)
    ensures |r| == if NameTaken(users, newUser.userName) then |users| else |users| + 1
    ensures r[..|users|] == users
    ensures !NameTaken(users, newUser.userName) ==> r[|users|] == newUser
    ensures UniqueNames(users) ==> UniqueNames(r)
  {
    if NameTaken(users, newUser.userName) then users
    else
      var r := users + [newUser];
      assert r[|users|].userName == newUser.userName;
      r
  }

  /** Exact, case-sensitive match on both credentials. */
  predicate Matches(u: User, name: string, password: string) {
    u.userName == name && u.password == password
  }

  /** `i` is the position `find` stops at: the first matching account. */
  predicate IsFirstMatch(users: seq<User>, i: int, name: string, password: string) {
    0 <= i < |users| && Matches(users[i], name, password) &&
    forall j :: 0 <= j < i ==> !Matches(users[j], name, password)
  }

  /** Where `users.find(...)` finds the account to log in, or None. */
  function FindIndex(users: seq<User>, name: string, password: string): (r: Option<nat>)
    ensures r.Some? ==> IsFirstMatch(users, r.value, name, password)
    ensures r.None? <==> forall j :: 0 <= j < |users| ==> !Matches(users[j], name, password)
  {
    if users == [] then None
    else if Matches(users[0], name, password) then Some(0)
    else match FindIndex(users[1..], name, password)
      case None => None
      case Some(k) => Some(k + 1)
  }

  /** Every registered account can log in with its own credentials, and finds itself. */
  lemma LoginFindsOwnAccount(users: seq<User>, i: int)
    requires UniqueNames(users)
    requires 0 <= i < |users|
    ensures FindIndex(users, users[i].userName, users[i].password) == Some(i)
  {
  }

  /** With unique names, a registered name with any other password does not log in. */
  lemma WrongPasswordFails(users: seq<User>, i: int, password: string)
    requires UniqueNames(users)
    requires 0 <= i < |users|
    requires password != users[i].password
    ensures FindIndex(users, users[i].userName, password).None?
  {
  }

  /** `users.map(user => user.userName === name ? updated : user)`. */
  function ReplaceByName(users: seq<User>, name: string, updated: User): (r: seq<User>)
    ensures |r| == |users|
    ensures forall i :: 0 <= i < |r| ==>
      r[i] == if users[i].userName == name then updated else users[i]
  {
    if users == [] then []
    else [if users[0].userName == name then updated else users[0]] + ReplaceByName(users[1..], name, updated)
  }

  /** Replacing accounts by one that keeps their name keeps every name in place, so names stay unique. */
  lemma ReplaceKeepsNames(users: seq<User>, name: string, updated: User)
    requires updated.userName == name
    ensures var r := ReplaceByName(users, name, updated);
      (forall i :: 0 <= i < |r| ==> r[i].userName == users[i].userName) &&
      (UniqueNames(users) ==> UniqueNames(r))
  {
    var r := ReplaceByName(users, name, updated);
    assert forall i :: 0 <= i < |r| ==> r[i].userName == users[i].userName;
  }
}
