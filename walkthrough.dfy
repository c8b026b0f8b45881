/**
 * A client of the store that uses nothing but the operations' contracts: register
 * alice, log her in, add one text code, delete it again, and try to register her
 * name a second time.
 */
module Walkthrough {
  import opened Types
  import opened Accounts
  import opened QrOps
  import opened UserContext

  method SignupLoginAddDelete(id: string, date: int)
  {
    var store := new Store(map[]);
    assert store.users == [] && store.currentUser.None?;
    var alice := User("alice", "pw1", Some([]));
    var taken := store.SignupUser(alice);
    assert !taken && store.users == [alice];

    var ok := store.LoginUser("alice", "pw1");
    assert Matches(store.users[0], "alice", "pw1");
    assert ok && store.currentUser == Some(alice) && store.qrData == [];

    var hello := QR(id, "text", date, "hello");
    store.AddQr(hello);
    assert store.qrData == [hello];
    assert store.currentUser.Some? && QrsOf(store.currentUser.value) == [hello];
    assert QrsOf(store.users[0]) == [hello];

    store.DeleteQr(id);
    AddThenDelete([], hello);
    assert store.qrData == [];
    assert QrsOf(store.users[0]) == [];

    var again := store.SignupUser(User("alice", "other", Some([])));
    assert again && |store.users| == 1;

    store.LogoutUser();
    assert LoadSession(store.storage).None? && LoadUsers(store.storage) == store.users;
  }
}
