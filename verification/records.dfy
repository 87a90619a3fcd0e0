/** The stored records, the relying-party configuration, and the shapes of
    the four WebAuthn library calls the ceremonies make. The library itself
    (option building, CBOR/COSE parsing, signature and counter checks) is not
    part of this model: each call is a function parameter that either throws
    or returns a value. */
module Records {
  import opened Base64Url

  datatype Option<T> = None | Some(value: T)

  /** What a library call did: threw, or returned a value. */
  datatype Outcome<T> = Throws | Returns(value: T)

  /** The errors the ceremonies raise; `LibraryThrew` is a library error
      rethrown unchanged. */
  datatype AuthError = UserNotFound | ChallengeMissing | DeviceNotFound | LibraryThrew

  datatype Result<T> = Ok(value: T) | Err(error: AuthError)

  /** A registered credential: id and public key as base64url text, the
      signature counter, and the optional transport hints. */
  datatype UserDevice = UserDevice(
    credentialID: string,
    credentialPublicKey: string,
    counter: nat,
    transports: Option<seq<string>>)

  /** A user record; `currentChallenge` is the challenge of the ceremony in
      flight, if any. */
  datatype User = User(
    id: string,
    username: string,
    devices: seq<UserDevice>,
    currentChallenge: Option<string>)

  /** `!user.currentChallenge` in the source is false for an absent challenge
      and for the empty string alike. */
  predicate HasChallenge(c: Option<string>) {
    c.Some? && c.value != ""
  }

  // Relying-party configuration.
  const RpId: string := "localhost"
  const RpName: string := "\U{30D1}\U{30B9}\U{30AD}\U{30FC}\U{30C7}\U{30E2}\U{30A2}\U{30D7}\U{30EA}"
  const Origin: string := "http://" + RpId + ":3000"

  // COSE algorithm identifiers.
  const Es256: int := -7
  const EdDsa: int := -8
  const Rs256: int := -257

  // generateRegistrationOptions

  datatype AuthenticatorSelection = AuthenticatorSelection(residentKey: string, userVerification: string)

  datatype RegistrationOptionsRequest = RegistrationOptionsRequest(
    rpName: string,
    rpID: string,
    userID: string,
    userName: string,
    attestationType: string,
    authenticatorSelection: AuthenticatorSelection,
    supportedAlgorithmIDs: seq<int>)

  /** The creation options the library returns; only the challenge it chose
      is looked at by the store. */
  datatype CreationOptions = CreationOptions(challenge: string, json: string)

  // verifyRegistrationResponse

  /** The browser's attestation response; the store reads only the transports
      it reports, the rest goes to the library as is. */
  datatype RegistrationResponse = RegistrationResponse(id: string, transports: Option<seq<string>>, body: string)

  datatype RegistrationVerifyRequest = RegistrationVerifyRequest(
    response: RegistrationResponse,
    expectedChallenge: string,
    expectedOrigin: string,
    expectedRPID: string)

  datatype RegistrationInfo = RegistrationInfo(credentialID: Bytes, credentialPublicKey: Bytes, counter: nat)

  datatype RegistrationVerification = RegistrationVerification(verified: bool, registrationInfo: Option<RegistrationInfo>)

  // generateAuthenticationOptions

  datatype AllowCredential = AllowCredential(id: Bytes, credentialType: string, transports: Option<seq<string>>)

  datatype AuthenticationOptionsRequest = AuthenticationOptionsRequest(
    rpID: string,
    userVerification: string,
    allowCredentials: seq<AllowCredential>)

  datatype RequestOptions = RequestOptions(challenge: string, json: string)

  // verifyAuthenticationResponse

  datatype AuthenticationResponse = AuthenticationResponse(id: string, body: string)

  /** The stored credential as handed to the library, id and key decoded. */
  datatype Authenticator = Authenticator(credentialID: Bytes, credentialPublicKey: Bytes, counter: nat)

  datatype AuthenticationVerifyRequest = AuthenticationVerifyRequest(
    response: AuthenticationResponse,
    expectedChallenge: string,
    expectedOrigin: string,
    expectedRPID: string,
    authenticator: Authenticator)

  datatype AuthenticationInfo = AuthenticationInfo(newCounter: nat)

  datatype AuthenticationVerification = AuthenticationVerification(verified: bool, authenticationInfo: AuthenticationInfo)

  /** The assumption under which stored counters never go down: the verifier
      accepts only a counter above the stored one, or two zero counters
      (authenticators without a counter). The check itself happens inside the
      library, not in the store. */
  ghost predicate RejectsCounterReplay(verify: AuthenticationVerifyRequest -> Outcome<AuthenticationVerification>) {
    forall req :: verify(req).Returns? && verify(req).value.verified ==>
      var newCounter := verify(req).value.authenticationInfo.newCounter;
      newCounter > req.authenticator.counter || (newCounter == 0 && req.authenticator.counter == 0)
  }
}
