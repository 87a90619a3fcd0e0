# Passkey ceremony store — a Dafny model

This project models the user store behind a passkey (WebAuthn) demo
application. The store is a list of users. Each user has an id, a username,
a list of registered devices (credential id and public key as base64url text,
a signature counter, optional transport hints) and at most one pending
challenge. Five operations act on the list:

- `createUser` appends a user.
- `generateRegOptions` gets or creates the user and stores the challenge of new
  registration options.
- `verifyRegResponse` checks an attestation and, on success, appends a device.
- `generateAuthOptions` builds the allow-list of the user's credentials and
  stores the challenge.
- `verifyAuthResponse` finds the device named by the assertion, checks it and,
  on success, advances that device's counter.

Both verify operations clear the pending challenge whenever the verifier
returns.

Files:

- `base64url.dfy` (module `Base64Url`): the URL-safe alphabet of section 5 of
  RFC 4648 without padding, as `Buffer.toString('base64url')` and
  `Buffer.from(s, 'base64url')` use it. Proved: decoding inverts encoding, and
  encoding is injective.
- `records.dfy` (module `Records`): user and device records, the
  relying-party constants, the error kinds, and the request and result shapes
  of the four WebAuthn library calls.
- `lookup.dfy` (module `Lookup`): the searches `users.some`, `users.find`,
  `users.findIndex` and `devices.find`, the allow-list map, and the write-back
  `users[userIndex] = user`.
- `store.dfy` (module `Auth`): class `UserStore`, whose field `users` is the
  module-level list. Its methods are the five operations.
- `scenarios.dfy` (module `Scenarios`): client runs proved from the method
  contracts alone.

How the source's behaviour is rendered:

- **Library calls are parameters.** Each of `generateRegistrationOptions`,
  `verifyRegistrationResponse`, `generateAuthenticationOptions` and
  `verifyAuthenticationResponse` is a function parameter from the request the
  store builds to `Outcome<T>`, which is `Throws` or `Returns(value)`. The
  contracts therefore say exactly what request the library receives (the
  stored challenge, the origin `http://localhost:3000`, the RP id
  `localhost`, the decoded credential and the stored counter).
- **Errors.** A thrown `Error` becomes `Err(UserNotFound)`,
  `Err(ChallengeMissing)` or `Err(DeviceNotFound)`. A library error rethrown
  by the `catch` becomes `Err(LibraryThrew)`.
- **Missing challenge.** The test `!user.currentChallenge` treats an empty
  string as missing, and so does `HasChallenge`.
- **Aliasing.** `getUser` returns the stored record itself, so a mutation of
  `user` or `device` changes record `j`, the first user with that name.
  `users[users.findIndex(u => u.id === user.id)] = user` then copies record `j`
  over the first record with the same id (`Lookup.StoreBack`). When ids are
  unique, that record is `j` and the write-back changes nothing. The method
  contracts state the general case. Separate clauses give the simple form
  under unique ids.

Where the specification and the code disagree, the model follows the code:

- `createUser` does not reject an existing username. Only
  `generateRegOptions` avoids creating a duplicate.
- `generateAuthOptions` does not reject a user without devices. Only the HTTP
  route checks for that.
- The challenge is not cleared when the verifier throws. The error propagates
  first.
- A failed registration is not an error: the verifier's result
  (`verified: false`) is returned as is, and the challenge is cleared.
- Counter replay detection happens inside the library. The store only passes
  the stored counter in and writes `newCounter` back.

## Model

| member | source | states |
|---|---|---|
| Lookup.UserExists | src/lib/auth.ts:87-93 | true exactly when some stored user has the given username |
| Lookup.FindUserIndex | src/lib/auth.ts:99 | the index of the first user with the given username, or none when no user has it |
| Lookup.GetUser | src/lib/auth.ts:96-102 | a record is returned exactly when `UserExists` holds; it has the requested name and is the first such record in the list |
| Lookup.FindIdIndex | src/lib/auth.ts:145 | the index of the first user with the given id, or none (the -1 of `findIndex`) |
| Lookup.FindDevice | src/lib/auth.ts:272-274 | the index of the first device whose stored credential id equals the response id, or none |
| Lookup.AllowCredentials | src/lib/auth.ts:235-239 | one entry per stored device, in the same order, each a public-key entry with the decoded id and the device's transports |
| Lookup.AllowCredentialsRawIds | src/lib/auth.ts:235-236 | when every stored id is the encoding of a raw id, the allow-list carries exactly those raw ids, position by position |
| Lookup.StoreBack | src/lib/auth.ts:145-148 | writing record `j` back changes no record with another id and leaves the list unchanged when ids are unique |
| Lookup.Update | src/lib/auth.ts:143-148 | after an in-place change and write-back, record `j` is the new value, records with other ids are untouched, and with unique ids only `j` changed and ids stay unique |
| Lookup.UpdateTwice | src/lib/auth.ts:197-211 | two changes to one record, each written back, equal the last one written back once |
| Lookup.GetUserAfterUpdate | src/lib/auth.ts:96-102 | after the first user of a name is changed and written back, looking the name up returns the changed record, whatever the other ids are |
| Lookup.EnsureUser | src/lib/auth.ts:122-127 | afterwards a user of that name exists; the list is unchanged if one existed, otherwise a record with the fresh id, no devices and no challenge is appended and is the one found |
| Base64Url.Char | src/lib/auth.ts:190 | every 6-bit value maps to a character of the URL-safe alphabet that maps back to it |
| Base64Url.EncodeValues | src/lib/auth.ts:190-191 | unpadded base64 produces ceil(4n/3) sextets for n bytes |
| Base64Url.Encode | src/lib/auth.ts:190-191 | the text has ceil(4n/3) characters, all from the URL-safe alphabet (no padding) |
| Base64Url.DecodeEncode | src/lib/auth.ts:289-290 | decoding the stored text gives back exactly the bytes that were encoded |
| Base64Url.EncodeInjective | src/lib/auth.ts:272-274 | distinct byte strings have distinct encodings, so comparing stored ids as text compares the raw ids |
| Auth.RegistrationRequest | src/lib/auth.ts:129-140 | registration options are requested for the user's id and name with RP name and id, attestation `none`, resident key required, user verification preferred, algorithms ES256 (-7) and RS256 (-257) only, EdDSA (-8) excluded |
| Auth.NewDevice | src/lib/auth.ts:184-194 | the stored device decodes back to the verified credential id and public key, keeps the reported counter, and stores the response transports or the empty list |
| Auth.UserStore.constructor | src/lib/auth.ts:69 | the store starts with the loaded list |
| Auth.UserStore.CreateUser | src/lib/auth.ts:105-117 | exactly one record is appended at the end (given id and name, no devices, no challenge), earlier records unchanged, an existing name not rejected; unique ids are kept when the id is fresh |
| Auth.UserStore.GenerateRegOptions | src/lib/auth.ts:120-154 | the user exists afterwards and is created only if absent (even when the library then throws); on success its challenge is the returned one, overwriting any earlier one, its devices are unchanged, the options are returned; with unique ids no other user changes and unique usernames are kept |
| Auth.UserStore.VerifyRegResponse | src/lib/auth.ts:157-221 | no user means UserNotFound and no challenge means ChallengeMissing, store unchanged; a throwing verifier leaves the store unchanged, challenge kept; otherwise the verifier gets the stored challenge, one device is appended only if verified with registration info, the challenge is cleared either way, and the result is returned unchanged |
| Auth.UserStore.GenerateAuthOptions | src/lib/auth.ts:224-253 | no user means UserNotFound and a throwing library leaves the store unchanged; otherwise the library receives the allow-list of the user's devices and the user's record changes only in its challenge, which becomes the returned one; an empty device list is not rejected |
| Auth.UserStore.VerifyAuthResponse | src/lib/auth.ts:256-321 | UserNotFound, ChallengeMissing or DeviceNotFound leave the store unchanged, as does a throwing verifier; otherwise the verifier gets the stored challenge and the matched device's decoded id, key and stored counter; only that device's counter changes, to `newCounter`, and only if verified; the challenge is cleared either way; if the verifier accepts only higher counters, no counter decreases |
| Scenarios.AliceRegistersAndLogsIn | src/lib/auth.ts:120-321 | register then log in: a login attempt before any authentication options is ChallengeMissing; the login is verified and leaves one device with counter 1 that decodes to the registered id and key; replaying the same assertion is ChallengeMissing |
| Scenarios.DuplicateUsername | src/lib/auth.ts:105-117 | creating the same name twice keeps two records, and the lookup by name returns the first |

## Left out

- Persistence (`src/lib/server-storage.ts`, `loadUsers`, `saveUsers`) is not part of this model. Saving and then loading returns the same list, so each reload and each save in a call collapse into one field update. A reload also breaks object sharing, and the value-based model has none to break.
- The browser branch (`localStorage`, `window`), `console` output and `logUsers` are not modelled. They are I/O and logging only.
- The library behind the four `@simplewebauthn/server` calls is not modelled: option building, CBOR/COSE parsing, signature, origin, RP-id and counter checks. Each call is a parameter that throws or returns. The options it returns are opaque apart from `challenge`.
- Randomness is not modelled. The user id from `crypto.randomUUID()` is the parameter `freshId`, and challenges come from the library's result.
- Concurrency and the `await` points are not modelled. Calls run one after another.
- The HTTP routes under `src/app/api`, the React components and `next.config.js` are not part of this model.
- Base64Url.Decode: characters outside the URL-safe alphabet are skipped. Node also maps `+` and `/` and stops at `=`. The store only decodes text it produced with `Encode`, so the round trip does not depend on this.
- Auth.UserStore.VerifyAuthResponse: the counter is a `nat`, not a 32-bit number. "No counter decreases" is proved only under the stated assumption `RejectsCounterReplay` about the verifier, and only when user ids are unique.
- Auth.UserStore.GenerateRegOptions: "no other user changes" is stated only when ids are unique and the new id is fresh. Without that, the general clause shows the write-back overwriting the first record with the same id.
