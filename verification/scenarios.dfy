/** Client scenarios proved from the store's contracts alone. The library calls
    are played by small functions that accept exactly the challenge the store
    was given. `raw` and `key` are the credential id and public key the
    authenticator reports. */
module Scenarios {
  import opened Base64Url
  import opened Records
  import opened Lookup
  import opened Auth

  function Attestation(raw: Bytes): RegistrationResponse {
    RegistrationResponse(Encode(raw), Some(["internal"]), "attestation")
  }

  function Device(raw: Bytes, key: Bytes): UserDevice {
    NewDevice(RegistrationInfo(raw, key, 0), Attestation(raw))
  }

  function Assertion(raw: Bytes): AuthenticationResponse {
    AuthenticationResponse(Encode(raw), "assertion")
  }

  /** A verifier that accepts the credential `raw` with counter 0 against the
      challenge "auth-challenge" and reports counter 1. */
  function Verifier(raw: Bytes): AuthenticationVerifyRequest -> Outcome<AuthenticationVerification> {
    (req: AuthenticationVerifyRequest) =>
      if req.expectedChallenge == "auth-challenge" && req.authenticator.credentialID == raw
         && req.authenticator.counter == 0
      then Returns(AuthenticationVerification(true, AuthenticationInfo(1)))
      else Returns(AuthenticationVerification(false, AuthenticationInfo(req.authenticator.counter)))
  }

  /** Registration options, then a matching attestation: one device with
      counter 0 and no challenge left. */
  method Register(store: UserStore, raw: Bytes, key: Bytes)
    requires store.users == []
    modifies store
    ensures store.users == [User("alice-id", "alice", [Device(raw, key)], None)]
  {
    var options := store.GenerateRegOptions("alice", "alice-id",
      req => Returns(CreationOptions("reg-challenge", "{}")));
    assert store.users == [User("alice-id", "alice", [], Some("reg-challenge"))];
    var registered := store.VerifyRegResponse("alice", Attestation(raw),
      (req: RegistrationVerifyRequest) =>
        if req.expectedChallenge == "reg-challenge"
        then Returns(RegistrationVerification(true, Some(RegistrationInfo(raw, key, 0))))
        else Returns(RegistrationVerification(false, None)));
  }

  /** Authentication options: the challenge is stored, nothing else changes. */
  method IssueLoginChallenge(store: UserStore, device: UserDevice)
    requires store.users == [User("alice-id", "alice", [device], None)]
    modifies store
    ensures store.users == [User("alice-id", "alice", [device], Some("auth-challenge"))]
  {
    var options := store.GenerateAuthOptions("alice",
      req => Returns(RequestOptions("auth-challenge", "{}")));
  }

  /** An assertion for the stored device against the stored challenge. */
  method LogIn(store: UserStore, raw: Bytes, key: Bytes) returns (login: Result<AuthenticationVerification>)
    requires store.users == [User("alice-id", "alice", [Device(raw, key)], None)]
    modifies store
    ensures login == Ok(AuthenticationVerification(true, AuthenticationInfo(1)))
    ensures store.users == [User("alice-id", "alice", [Device(raw, key).(counter := 1)], None)]
  {
    var device := Device(raw, key);
    IssueLoginChallenge(store, device);
    assert UniqueIds(store.users);
    assert FindDevice([device], Assertion(raw).id) == Some(0);
    assert AuthenticatorFor(device).credentialID == raw && AuthenticatorFor(device).counter == 0;
    ghost var before := store.users;
    login := store.VerifyAuthResponse("alice", Assertion(raw), Verifier(raw));
    assert [device][0 := device.(counter := 1)] == [device.(counter := 1)];
    assert store.users == before[0 := before[0].(devices := [device.(counter := 1)], currentChallenge := None)];
  }

  /** "alice" registers one passkey and logs in with it once. A login attempt
      before any authentication options were issued fails for want of a
      challenge; the accepted login leaves the counter at 1; replaying the
      same assertion fails because the challenge was consumed. */
  method AliceRegistersAndLogsIn(raw: Bytes, key: Bytes)
    returns (early: Result<AuthenticationVerification>,
             login: Result<AuthenticationVerification>,
             devices: seq<UserDevice>,
             replay: Result<AuthenticationVerification>)
    ensures early == Err(ChallengeMissing)
    ensures login.Ok? && login.value.verified
    ensures |devices| == 1 && devices[0].counter == 1
    ensures Decode(devices[0].credentialID) == raw && Decode(devices[0].credentialPublicKey) == key
    ensures replay == Err(ChallengeMissing)
  {
    var store := new UserStore([]);
    Register(store, raw, key);
    early := store.VerifyAuthResponse("alice", Assertion(raw), Verifier(raw));
    login := LogIn(store, raw, key);
    devices := store.users[0].devices;
    replay := store.VerifyAuthResponse("alice", Assertion(raw), Verifier(raw));
  }

  /** `createUser` called twice with one name keeps both records; lookups by
      name see only the first. */
  method DuplicateUsername() returns (count: nat, found: Option<User>)
    ensures count == 2
    ensures found == Some(User("bob-1", "bob", [], None))
  {
    var store := new UserStore([]);
    var first := store.CreateUser("bob", "bob-1");
    var second := store.CreateUser("bob", "bob-2");
    count := |store.users|;
    found := GetUser(store.users, "bob");
  }
}
