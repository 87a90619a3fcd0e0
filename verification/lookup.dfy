/** Pure searches over the user list (`users.some`, `users.find`,
    `users.findIndex`, `devices.find`), the allow-list built from a user's
    devices, and the write-back `users[userIndex] = user`. */
module Lookup {
  import opened Base64Url
  import opened Records

  /** `users.some(user => user.username === username)`. */
  function UserExists(users: seq<User>, username: string): (b: bool)
    ensures b <==> exists i :: 0 <= i < |users| && users[i].username == username
  {
    if users == [] then false
    else users[0].username == username || UserExists(users[1..], username)
  }

  /** The index of the first user named `username`, as `users.find` picks it. */
  function FindUserIndex(users: seq<User>, username: string): (r: Option<nat>)
    ensures r.Some? ==> r.value < |users| && users[r.value].username == username
    ensures r.Some? ==> forall i :: 0 <= i < r.value ==> users[i].username != username
    ensures r.None? ==> forall i :: 0 <= i < |users| ==> users[i].username != username
  {
    if users == [] then None
    else if users[0].username == username then Some(0)
    else match FindUserIndex(users[1..], username)
      case None => None
      case Some(i) => Some(i + 1)
  }

  /** `getUser`: the first record named `username`, if any. */
  function GetUser(users: seq<User>, username: string): (r: Option<User>)
    ensures r.Some? <==> UserExists(users, username)
    ensures r.Some? ==> r.value.username == username
    ensures forall i ::
      (0 <= i < |users| && users[i].username == username &&
       forall h :: 0 <= h < i ==> users[h].username != username) ==> r == Some(users[i])
  {
    match FindUserIndex(users, username)
    case None => None
    case Some(i) => Some(users[i])
  }

  /** `users.findIndex(u => u.id === id)`, with absence as `None` for -1. */
  function FindIdIndex(users: seq<User>, id: string): (r: Option<nat>)
    ensures r.Some? ==> r.value < |users| && users[r.value].id == id
    ensures r.Some? ==> forall i :: 0 <= i < r.value ==> users[i].id != id
    ensures r.None? ==> forall i :: 0 <= i < |users| ==> users[i].id != id
  {
    if users == [] then None
    else if users[0].id == id then Some(0)
    else match FindIdIndex(users[1..], id)
      case None => None
      case Some(i) => Some(i + 1)
  }

  /** `devices.find(device => device.credentialID === id)`, as an index. */
  function FindDevice(devices: seq<UserDevice>, id: string): (r: Option<nat>)
    ensures r.Some? ==> r.value < |devices| && devices[r.value].credentialID == id
    ensures r.Some? ==> forall e :: 0 <= e < r.value ==> devices[e].credentialID != id
    ensures r.None? ==> forall e :: 0 <= e < |devices| ==> devices[e].credentialID != id
  {
    if devices == [] then None
    else if devices[0].credentialID == id then Some(0)
    else match FindDevice(devices[1..], id)
      case None => None
      case Some(e) => Some(e + 1)
  }

  /** The `allowCredentials` list: one public-key entry per stored device, in
      order, with the id decoded back to bytes. */
  function AllowCredentials(devices: seq<UserDevice>): (r: seq<AllowCredential>)
    ensures |r| == |devices|
    ensures forall e :: 0 <= e < |devices| ==>
      r[e] == AllowCredential(Decode(devices[e].credentialID), "public-key", devices[e].transports)
  {
    if devices == [] then []
    else [AllowCredential(Decode(devices[0].credentialID), "public-key", devices[0].transports)]
         + AllowCredentials(devices[1..])
  }

  /** Every stored id was produced by encoding the raw id of the same
      position in `raw`, as registration stores them: then the allow-list
      carries exactly those raw ids. */
  lemma {:induction false} AllowCredentialsRawIds(devices: seq<UserDevice>, raw: seq<Bytes>)
    requires |raw| == |devices|
    requires forall e :: 0 <= e < |devices| ==> devices[e].credentialID == Encode(raw[e])
    ensures |AllowCredentials(devices)| == |raw|
    ensures forall e :: 0 <= e < |raw| ==> AllowCredentials(devices)[e].id == raw[e]
  {
    forall e | 0 <= e < |raw|
      ensures AllowCredentials(devices)[e].id == raw[e]
    {
      DecodeEncode(raw[e]);
    }
  }

  ghost predicate UniqueIds(users: seq<User>) {
    forall i, j :: 0 <= i < j < |users| ==> users[i].id != users[j].id
  }

  ghost predicate UniqueUsernames(users: seq<User>) {
    forall i, j :: 0 <= i < j < |users| ==> users[i].username != users[j].username
  }

  /** No stored user has `id` (what a fresh `crypto.randomUUID()` gives). */
  ghost predicate FreshId(users: seq<User>, id: string) {
    forall i :: 0 <= i < |users| ==> users[i].id != id
  }

  /** `users[users.findIndex(u => u.id === user.id)] = user`, where `user` is
      the record at index `j`: the first record with the same id becomes a copy
      of record `j`. With unique ids that first record is `j` itself and the
      write-back changes nothing. */
  function StoreBack(users: seq<User>, j: nat): (r: seq<User>)
    requires j < |users|
    ensures |r| == |users| && r[j] == users[j]
    ensures forall i :: 0 <= i < |users| && users[i].id != users[j].id ==> r[i] == users[i]
    ensures UniqueIds(users) ==> r == users
  {
    var k := FindIdIndex(users, users[j].id);
    if k.Some? then users[k.value := users[j]] else users
  }

  /** Record `j` changed in place to `u`, then written back. */
  function Update(users: seq<User>, j: nat, u: User): (r: seq<User>)
    requires j < |users| && u.id == users[j].id
    ensures |r| == |users| && r[j] == u
    ensures forall i :: 0 <= i < |users| && users[i].id != u.id ==> r[i] == users[i]
    ensures UniqueIds(users) ==> r == users[j := u] && UniqueIds(r)
  {
    StoreBack(users[j := u], j)
  }

  /** Two changes to the same record, each written back, amount to the last
      one written back once. */
  lemma UpdateTwice(users: seq<User>, j: nat, a: User, b: User)
    requires j < |users| && a.id == users[j].id && b.id == users[j].id
    ensures Update(Update(users, j, a), j, b) == Update(users, j, b)
  {
    var k := FindIdIndex(users, users[j].id).value;
    var s1 := users[j := a];
    assert FindIdIndex(s1, a.id) == Some(k) by {
      FirstIdIs(s1, a.id, k);
    }
    var s2 := Update(users, j, a)[j := b];
    assert s2 == users[j := b][k := a][j := b];
    assert FindIdIndex(s2, b.id) == Some(k) by {
      FirstIdIs(s2, b.id, k);
    }
    assert FindIdIndex(users[j := b], b.id) == Some(k) by {
      FirstIdIs(users[j := b], b.id, k);
    }
  }

  lemma FirstIdIs(users: seq<User>, id: string, k: nat)
    requires k < |users| && users[k].id == id
    requires forall i :: 0 <= i < k ==> users[i].id != id
    ensures FindIdIndex(users, id) == Some(k)
  {
  }

  lemma FirstUserIs(users: seq<User>, username: string, k: nat)
    requires k < |users| && users[k].username == username
    requires forall i :: 0 <= i < k ==> users[i].username != username
    ensures FindUserIndex(users, username) == Some(k)
  {
  }

  /** After the first user named `username` is changed in place and written
      back, looking the name up again finds the changed record, whatever the
      ids of the other records. */
  lemma GetUserAfterUpdate(users: seq<User>, username: string, u: User)
    requires FindUserIndex(users, username).Some?
    requires u.id == users[FindUserIndex(users, username).value].id && u.username == username
    ensures GetUser(Update(users, FindUserIndex(users, username).value, u), username) == Some(u)
  {
  }

  /** The list after `generateRegOptions` has made sure a user named
      `username` exists: unchanged when one does, otherwise with a new record
      (fresh id, no devices, no challenge) appended. */
  function EnsureUser(users: seq<User>, username: string, freshId: string): (r: seq<User>)
    ensures FindUserIndex(r, username).Some?
    ensures UserExists(users, username) ==> r == users
    ensures !UserExists(users, username) ==>
      r == users + [User(freshId, username, [], None)] && FindUserIndex(r, username) == Some(|users|)
  {
    if UserExists(users, username) then users
    else
      var r := users + [User(freshId, username, [], None)];
      FirstUserIs(r, username, |users|);
      r
  }
}
