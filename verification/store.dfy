/** The passkey ceremony state machine of the user store: `createUser`,
    `generateRegOptions`, `verifyRegResponse`, `generateAuthOptions` and
    `verifyAuthResponse`. The four library calls are parameters; the fresh
    user id is a parameter standing for `crypto.randomUUID()`. Saving and
    reloading the list are the identity, so the stored list is one field. */
module Auth {
  import opened Base64Url
  import opened Records
  import opened Lookup

  /** What `generateRegOptions` asks the library for. */
  function RegistrationRequest(userID: string, userName: string): (req: RegistrationOptionsRequest)
    ensures req.rpName == RpName && req.rpID == RpId
    ensures req.userID == userID && req.userName == userName
    ensures req.attestationType == "none"
    ensures req.authenticatorSelection.residentKey == "required"
    ensures req.authenticatorSelection.userVerification == "preferred"
    ensures req.supportedAlgorithmIDs == [Es256, Rs256] && EdDsa !in req.supportedAlgorithmIDs
  {
    RegistrationOptionsRequest(RpName, RpId, userID, userName, "none",
      AuthenticatorSelection("required", "preferred"), [-7, -257])
  }

  /** What `generateAuthOptions` asks the library for. */
  function AuthenticationRequest(devices: seq<UserDevice>): AuthenticationOptionsRequest {
    AuthenticationOptionsRequest(RpId, "preferred", AllowCredentials(devices))
  }

  /** The device record `verifyRegResponse` stores for a verified
      registration: id and key encoded as base64url text, transports defaulting
      to the empty list. */
  function NewDevice(info: RegistrationInfo, response: RegistrationResponse): (d: UserDevice)
    ensures Decode(d.credentialID) == info.credentialID
    ensures Decode(d.credentialPublicKey) == info.credentialPublicKey
    ensures d.counter == info.counter
    ensures response.transports.None? ==> d.transports == Some([])
    ensures response.transports.Some? ==> d.transports == response.transports
  {
    DecodeEncode(info.credentialID);
    DecodeEncode(info.credentialPublicKey);
    var transports := match response.transports
      case Some(t) => t
      case None => [];
    UserDevice(Encode(info.credentialID), Encode(info.credentialPublicKey), info.counter, Some(transports))
  }

  /** The devices a returned verification adds: one exactly when it is
      verified and carries registration info. */
  function RegisteredDevices(v: RegistrationVerification, response: RegistrationResponse): seq<UserDevice> {
    if v.verified && v.registrationInfo.Some? then [NewDevice(v.registrationInfo.value, response)] else []
  }

  /** The stored credential as `verifyAuthResponse` hands it to the verifier. */
  function AuthenticatorFor(device: UserDevice): Authenticator {
    Authenticator(Decode(device.credentialID), Decode(device.credentialPublicKey), device.counter)
  }

  /** Same users and devices, and no device's counter lower than before. */
  ghost predicate CountersNotLowered(before: seq<User>, after: seq<User>) {
    |after| == |before| &&
    forall i :: 0 <= i < |after| ==>
      |after[i].devices| == |before[i].devices| &&
      forall e :: 0 <= e < |after[i].devices| ==> after[i].devices[e].counter >= before[i].devices[e].counter
  }

  class UserStore {
    /** The module-level `users` list. */
    var users: seq<User>

    /** `let users = loadUsers()`. */
    constructor (stored: seq<User>)
      ensures users == stored
    {
      users := stored;
    }

    /** `createUser`: appends a record with the given id and name, no devices
        and no challenge. An existing user of that name is not rejected. */
    method CreateUser(username: string, id: string) returns (user: User)
      modifies this
      ensures user == User(id, username, [], None)
      ensures users == old(users) + [user]
      ensures UniqueIds(old(users)) && FreshId(old(users), id) ==> UniqueIds(users)
    {
      user := User(id, username, [], None);
      users := users + [user];
    }

    /** `generateRegOptions`: gets or creates the user, asks the library for
        options, and stores the returned challenge on that user. */
    method GenerateRegOptions(
      username: string,
      freshId: string,
      generate: RegistrationOptionsRequest -> Outcome<CreationOptions>)
      returns (r: Result<CreationOptions>)
      modifies this
      ensures var pre := EnsureUser(old(users), username, freshId);
              var j := FindUserIndex(pre, username).value;
              match generate(RegistrationRequest(pre[j].id, username))
              case Throws => r == Err(LibraryThrew) && users == pre
              case Returns(options) =>
                r == Ok(options) && users == Update(pre, j, pre[j].(currentChallenge := Some(options.challenge)))
      ensures UserExists(users, username)
      ensures |users| == |old(users)| + (if UserExists(old(users), username) then 0 else 1)
      ensures r.Ok? ==> GetUser(users, username).value.currentChallenge == Some(r.value.challenge)
      ensures r.Ok? ==> GetUser(users, username).value.devices ==
                        (if UserExists(old(users), username) then GetUser(old(users), username).value.devices else [])
      ensures UniqueIds(old(users)) && FreshId(old(users), freshId) ==>
        UniqueIds(users) &&
        forall i :: 0 <= i < |old(users)| && old(users)[i].username != username ==> users[i] == old(users)[i]
      ensures UniqueIds(old(users)) && FreshId(old(users), freshId) && UniqueUsernames(old(users)) ==>
        UniqueUsernames(users)
    {
      var found := FindUserIndex(users, username);
      if found.None? {
        var _ := CreateUser(username, freshId);
        FirstUserIs(users, username, |users| - 1);
      }
      ghost var pre := users;
      var j := FindUserIndex(users, username).value;
      var user := users[j];
      var outcome := generate(RegistrationRequest(user.id, username));
      if outcome.Throws? {
        return Err(LibraryThrew);
      }
      var options := outcome.value;
      users := users[j := user.(currentChallenge := Some(options.challenge))];
      users := StoreBack(users, j);
      GetUserAfterUpdate(pre, username, user.(currentChallenge := Some(options.challenge)));
      r := Ok(options);
    }

    /** `verifyRegResponse`: checks the user and its pending challenge, calls
        the verifier with that challenge, and when it returns appends the new
        device (only if verified with registration info) and clears the
        challenge. A library error propagates before anything changes. */
    method VerifyRegResponse(
      username: string,
      response: RegistrationResponse,
      verify: RegistrationVerifyRequest -> Outcome<RegistrationVerification>)
      returns (r: Result<RegistrationVerification>)
      modifies this
      ensures match FindUserIndex(old(users), username)
        case None => r == Err(UserNotFound) && users == old(users)
        case Some(j) =>
          var user := old(users)[j];
          if !HasChallenge(user.currentChallenge) then r == Err(ChallengeMissing) && users == old(users)
          else match verify(RegistrationVerifyRequest(response, user.currentChallenge.value, Origin, RpId))
            case Throws => r == Err(LibraryThrew) && users == old(users)
            case Returns(v) =>
              r == Ok(v) &&
              users == Update(old(users), j,
                user.(devices := user.devices + RegisteredDevices(v, response), currentChallenge := None))
      ensures r.Err? ==> users == old(users)
      ensures r.Ok? ==>
        var before := GetUser(old(users), username).value;
        var after := GetUser(users, username).value;
        after.currentChallenge == None &&
        after.devices[..|before.devices|] == before.devices &&
        |after.devices| == |before.devices| + (if r.value.verified && r.value.registrationInfo.Some? then 1 else 0)
    {
      var found := FindUserIndex(users, username);
      if found.None? {
        return Err(UserNotFound);
      }
      var j := found.value;
      var user := users[j];
      if !HasChallenge(user.currentChallenge) {
        return Err(ChallengeMissing);
      }
      var outcome := verify(RegistrationVerifyRequest(response, user.currentChallenge.value, Origin, RpId));
      if outcome.Throws? {
        return Err(LibraryThrew);
      }
      var verification := outcome.value;
      ghost var before := users;
      var added := user;
      if verification.verified && verification.registrationInfo.Some? {
        var info := verification.registrationInfo.value;
        added := user.(devices := user.devices + [NewDevice(info, response)]);
        users := users[j := added];
        users := StoreBack(users, j);
      }
      var cleared := added.(currentChallenge := None);
      assert cleared == user.(devices := user.devices + RegisteredDevices(verification, response),
                              currentChallenge := None);
      if verification.verified && verification.registrationInfo.Some? {
        UpdateTwice(before, j, added, cleared);
      } else {
        assert users == before[j := added];
      }
      users := users[j := users[j].(currentChallenge := None)];
      users := StoreBack(users, j);
      GetUserAfterUpdate(before, username, cleared);
      r := Ok(verification);
    }

    /** `generateAuthOptions`: builds the allow-list from the user's devices,
        asks the library for options, and stores the returned challenge. A user
        without devices is not rejected here. */
    method GenerateAuthOptions(
      username: string,
      generate: AuthenticationOptionsRequest -> Outcome<RequestOptions>)
      returns (r: Result<RequestOptions>)
      modifies this
      ensures match FindUserIndex(old(users), username)
        case None => r == Err(UserNotFound) && users == old(users)
        case Some(j) =>
          match generate(AuthenticationRequest(old(users)[j].devices))
          case Throws => r == Err(LibraryThrew) && users == old(users)
          case Returns(options) =>
            r == Ok(options) &&
            users == Update(old(users), j, old(users)[j].(currentChallenge := Some(options.challenge)))
      ensures r.Err? ==> users == old(users)
      ensures r.Ok? ==>
        GetUser(users, username).value ==
        GetUser(old(users), username).value.(currentChallenge := Some(r.value.challenge))
    {
      var found := FindUserIndex(users, username);
      if found.None? {
        return Err(UserNotFound);
      }
      var j := found.value;
      var user := users[j];
      var outcome := generate(AuthenticationRequest(user.devices));
      if outcome.Throws? {
        return Err(LibraryThrew);
      }
      var options := outcome.value;
      ghost var before := users;
      users := users[j := user.(currentChallenge := Some(options.challenge))];
      users := StoreBack(users, j);
      GetUserAfterUpdate(before, username, user.(currentChallenge := Some(options.challenge)));
      r := Ok(options);
    }

    /** `verifyAuthResponse`: checks the user, its pending challenge and the
        device whose stored id equals the response id, calls the verifier with
        the stored challenge and the device's stored counter, and when it
        returns writes back the new counter (only if verified) and clears the
        challenge. A library error propagates before anything changes. */
    method VerifyAuthResponse(
      username: string,
      response: AuthenticationResponse,
      verify: AuthenticationVerifyRequest -> Outcome<AuthenticationVerification>)
      returns (r: Result<AuthenticationVerification>)
      modifies this
      ensures match FindUserIndex(old(users), username)
        case None => r == Err(UserNotFound) && users == old(users)
        case Some(j) =>
          var user := old(users)[j];
          if !HasChallenge(user.currentChallenge) then r == Err(ChallengeMissing) && users == old(users)
          else match FindDevice(user.devices, response.id)
            case None => r == Err(DeviceNotFound) && users == old(users)
            case Some(d) =>
              var device := user.devices[d];
              match verify(AuthenticationVerifyRequest(response, user.currentChallenge.value, Origin, RpId,
                                                       AuthenticatorFor(device)))
              case Throws => r == Err(LibraryThrew) && users == old(users)
              case Returns(v) =>
                var devices := if v.verified
                  then user.devices[d := device.(counter := v.authenticationInfo.newCounter)]
                  else user.devices;
                r == Ok(v) && users == Update(old(users), j, user.(devices := devices, currentChallenge := None))
      ensures r.Err? ==> users == old(users)
      ensures r.Ok? ==> GetUser(users, username).value.currentChallenge == None
      ensures RejectsCounterReplay(verify) && UniqueIds(old(users)) ==> CountersNotLowered(old(users), users)
    {
      var found := FindUserIndex(users, username);
      if found.None? {
        return Err(UserNotFound);
      }
      var j := found.value;
      var user := users[j];
      if !HasChallenge(user.currentChallenge) {
        return Err(ChallengeMissing);
      }
      var foundDevice := FindDevice(user.devices, response.id);
      if foundDevice.None? {
        return Err(DeviceNotFound);
      }
      var d := foundDevice.value;
      var device := user.devices[d];
      var outcome := verify(AuthenticationVerifyRequest(response, user.currentChallenge.value, Origin, RpId,
                                                        AuthenticatorFor(device)));
      if outcome.Throws? {
        return Err(LibraryThrew);
      }
      var verification := outcome.value;
      ghost var before := users;
      var advanced := user;
      if verification.verified {
        advanced := user.(devices := user.devices[d := device.(counter := verification.authenticationInfo.newCounter)]);
        users := users[j := advanced];
        users := StoreBack(users, j);
      }
      var cleared := advanced.(currentChallenge := None);
      if verification.verified {
        UpdateTwice(before, j, advanced, cleared);
      } else {
        assert users == before[j := advanced];
      }
      users := users[j := users[j].(currentChallenge := None)];
      users := StoreBack(users, j);
      GetUserAfterUpdate(before, username, cleared);
      r := Ok(verification);
    }
  }
}
