# Account service: capability tokens, user table and handler decisions

This Dafny project models the core of a small Rust account service (no database, no sessions).
It covers four parts:

- **Tokens (`Verify`)** are the signed query parameters of two kinds of link. A creation link carries an e-mail address and the
  HMAC-SHA3-256 of that address under a fixed process key. A reset link carries an account id, an
  expiry instant three hours after issue, and the MAC of the id's decimal digits followed directly
  by the expiry's text. Verification recomputes the MAC. For a reset it first rejects a link whose
  expiry is strictly in the past, and it recomputes from the looked-up account's own id.
- **User table (`Users`)** holds account records and the builder that assembles a new account. It also holds the
  `UserDatabase` class, whose `users` field is the id-to-account map. `AddUser` rejects an address
  that is already stored and otherwise inserts at the new account's id. The test database
  inserts six accounts one after another.
- **Page logic (`Html`)**: `create_url`, and the account list sorted by id. The list is collected from the
  table and sorted in place on an array.
- **Handlers (`Handlers`)**: the decisions of the reset and create POST handlers, the new-user POST handler and
  the rejection-to-status mapping. Each state-changing handler is a method on the shared
  `UserDatabase`. It is proved equal to a function of the old table (`ResetPost`, `CreatePost`),
  and the lemmas state the properties about those functions.

Three foreign calls are fields of `Foreign.Primitives`: the MAC, chrono's text of an instant,
and `bcrypt::hash`. The fourth, `serde_url_params::to_string`, is the `serialize` parameter of
`Html.CreateUrl` and `Handlers.NewUserPost`. Nothing is assumed about any of them, except
in lemmas that state an explicit hypothesis:

- the MAC is collision-free (`MacCollisionFree`), required by `Verify.CreateTokenBindsEmail`,
  `Verify.ResetTokenBindsAccount` and `Handlers.ResetPostRejectsForeignToken`;
- the expiry text has one of chrono's shapes, `YYYY-…` or `+…` for years past 9999
  (`ExpiryShaped`), required by `Verify.ResetInputUnambiguous`, `Verify.ResetTokenBindsAccount`
  and `Handlers.ResetPostRejectsForeignToken`.
 The clock reading (`now`), the random ids and the random
test-account values are parameters. `u64::to_string` is modelled exactly (`Decimal.ToString`),
because the reset MAC input is built from it.

Two behaviours of the code worth noting:

- The reset time check is `now > expires` (src/verify.rs:77), so a link checked at exactly its expiry
  instant still passes (`ResetValidAtExpiryInstant`).
- The test database draws each address from a random `u16`, and it does not check ids. Its addresses
  are unique when the six draws differ (`CreateTestDb`'s last postcondition).

## Model

| member | source | states |
|---|---|---|
| `Decimal.ToString` | src/verify.rs:66 | `u64::to_string` is non-empty, all digits, and starts with '0' exactly for 0 |
| `Decimal.ValueOfToString` | src/verify.rs:66 | reading the printed numeral back gives the number |
| `Decimal.ToStringInjective` | src/verify.rs:66 | different ids print differently |
| `Users.ResetPassword` | src/user.rs:29-31 | only the credential changes, to `bcrypt(new_password, 4)`; id, name and e-mail are kept |
| `Users.UserFrom` | src/user.rs:18-27 | a test account has the drawn id, the given name, the address `user-N@spookysoftware.dev` and the hash of the drawn password |
| `Users.TestEmailInjective` | src/user.rs:20 | different drawn numbers give different test addresses |
| `Users.BuildUser` | src/user.rs:65-76 | `build` gives an account exactly when name, e-mail and password are all present; it then has the requested name and address and the hash of the password |
| `Users.UserBuilder.constructor` | src/user.rs:42-48 | a new builder has nothing requested |
| `Users.UserBuilder.WithEmail` | src/user.rs:50-53 | sets the address; the other two fields are untouched |
| `Users.UserBuilder.WithName` | src/user.rs:55-58 | sets the name; the other two fields are untouched |
| `Users.UserBuilder.Build` | src/user.rs:65-76 | `build` on the builder's fields: an account exactly when all three were requested, with the requested name and address, the drawn id and the hash of the password |
| `Users.UserBuilder.WithPassword` | src/user.rs:60-63 | sets the password; the other two fields are untouched |
| `Users.HasEmail` | src/user.rs:128 | the duplicate check is true exactly when some stored account holds the address |
| `Users.AddTo` | src/user.rs:125-135 | `add_user` succeeds exactly when the build succeeds and no stored account has the address. On failure the table is unchanged. On success exactly the new id's entry is set, and every other entry is kept |
| `Users.AddKeepsEmailsUnique` | src/user.rs:128-133 | `add_user` preserves "no two accounts share an address" |
| `Users.AddKeepsKeysMatchingIds` | src/user.rs:132 | `add_user` keeps every account stored under its own id |
| `Users.AddOverwritesOnIdCollision` | src/user.rs:132 | a new account with a taken id replaces the stored one: the size stays the same and the old account's address is gone |
| `Users.AddAllPresentEmailFails` | src/user.rs:128-130 | every later add of a stored address fails and changes nothing |
| `Users.SameEmailAddedOnce` | src/user.rs:125-135 | on any table without the address, of a series of adds of that address exactly one (the first) succeeds; afterwards exactly one account, the first one's id, holds the address, and a table with unique addresses keeps them unique |
| `Users.DistinctAccountsUnique` | src/user.rs:87-112 | a table built from accounts with pairwise different addresses has unique addresses |
| `Users.UserDatabase.CreateTestDb` | src/user.rs:87-112 | the table is exactly the six inserts in turn: five test accounts under their drawn ids, then "Neo" at id 1. Every account sits under its own id, all names are from the six, and addresses are unique when the drawn numbers differ |
| `Users.UserDatabase.AddUser` | src/user.rs:125-135 | the outcome and the new table are those of `AddTo`; address uniqueness is preserved |
| `Verify.CreateFrom` | src/verify.rs:44-52 | the link stores exactly the address and the MAC of the address |
| `Verify.CreateVerify` | src/verify.rs:38-41 | true exactly when the token equals the one issued for the address |
| `Verify.CreateRoundTrip` | src/verify.rs:38-52 | a creation link verifies for the address it was issued for |
| `Verify.CreateTokenBindsEmail` | src/verify.rs:28-41 | with a collision-free MAC, a creation link verifies for its own address and no other |
| `Verify.ResetMacInput` | src/verify.rs:64-69 | the MAC message is the decimal id first and the expiry text after it, with no separator |
| `Verify.ResetFrom` | src/verify.rs:85-95 | the link carries the account's id, the expiry `now + 3h` and the MAC of the id digits followed by the expiry text |
| `Verify.ResetVerify` | src/verify.rs:75-82 | false when `now` is strictly past the expiry. Otherwise true exactly when the token is the MAC of the passed account's id and the link's expiry |
| `Verify.ResetRoundTrip` | src/verify.rs:75-95 | a reset link verifies against its account at any time up to issue + 3h |
| `Verify.ResetValidAtExpiryInstant` | src/verify.rs:77 | a link checked at exactly its expiry instant still verifies |
| `Verify.ResetExpiredRejected` | src/verify.rs:76-79 | a link past its expiry is rejected whatever its token |
| `Verify.ResetVerifyIgnoresLinkUserId` | src/verify.rs:75-81 | changing the link's `user_id` never changes the verdict |
| `Verify.ResetInputUnambiguous` | src/verify.rs:66-67 | with expiry texts in chrono's shapes (`YYYY-…`, or `+…` past year 9999), the unseparated message determines both the id and the expiry text |
| `Verify.ResetTokenBindsAccount` | src/verify.rs:64-82 | with a collision-free MAC, a token issued for account A verifies against account B only if B has A's id and the link's expiry prints as the issued one |
| `Html.CreateUrl` | src/html.rs:8-16 | the pathname alone, or pathname + "?" + the serialised parameters |
| `Html.UrlRoundTrip` | src/html.rs:8-16 | for a pathname without '?', the URL splits back into that pathname and exactly the serialised parameters |
| `Html.SortById` | src/html.rs:46 | the array ends sorted by id and is a permutation of its old contents |
| `Html.CollectValues` | src/html.rs:45 | one entry per table key: each account appears exactly as often as keys of the table store it |
| `Html.ListUsers` | src/html.rs:43-49 | the list has one entry per table key, each account exactly as often as keys store it (so every table value and only table values), and is sorted by id. It is strictly increasing when accounts sit under their own ids |
| `Handlers.RejectionStatus` | src/main.rs:156-168 | BadRequest gives 400, RenderError gives 500, and every other rejection gives 404 |
| `Handlers.NewUserPost` | src/main.rs:100-111 | the page carries a link together with exactly the requested address |
| `Handlers.ResetPost` | src/main.rs:38-57 | an unknown id is the only error and is NotFound; the set of ids never changes; otherwise the page reports exactly the verdict of `ResetVerify` against the looked-up account |
| `Handlers.CreatePost` | src/main.rs:120-146 | an error is always BadRequest and changes nothing (render failures are not modelled); otherwise the page reports exactly the verdict of `CreateVerify`; a changed table has exactly the old ids plus the new id |
| `Handlers.ResetPasswordPostHandler` | src/main.rs:38-57 | the reply and the new table are those of `ResetPost` on the old table; accounts stay under their own ids |
| `Handlers.CreateUserPostHandler` | src/main.rs:120-146 | the reply and the new table are those of `CreatePost` on the old table; accounts stay under their own ids |
| `Handlers.ResetPostUnknownId` | src/main.rs:43-46 | an unknown id is not found (404) and changes nothing |
| `Handlers.ResetPostChangesOnlyWhenVerified` | src/main.rs:45-51 | the table changes only if the link verifies against the looked-up account, and then only that account's credential changes. A failed check changes nothing and reports failure |
| `Handlers.ResetPostExpiredChangesNothing` | src/main.rs:48-50 | an expired link changes nothing |
| `Handlers.ResetPostWithIssuedLink` | src/main.rs:43-51 | submitting an issued reset link in time resets exactly that account's password and reports success |
| `Handlers.ResetPostRejectsForeignToken` | src/main.rs:45-51 | a token issued for another account never changes the named account (collision-free MAC, chrono-shaped expiry texts) |
| `Handlers.ResetPostKeepsInvariants` | src/main.rs:45-51 | resets keep ids matching keys and addresses unique |
| `Handlers.CreatePostInvalidToken` | src/main.rs:130-142 | an unverified creation link adds nobody and reports failure on the page |
| `Handlers.CreatePostDuplicateIsBadRequest` | src/main.rs:138-140 | a verified link for a stored address is a BadRequest (400) and changes nothing |
| `Handlers.CreatePostUsesSignedEmail` | src/main.rs:125-141 | any added account has the link's signed address and the form's name and hashed password, and the link verified |
| `Handlers.CreatePostKeepsInvariants` | src/main.rs:132-141 | creations keep ids matching keys and addresses unique |
| `Handlers.NewUserLinkCreatesAccount` | src/main.rs:103-105 | the link points at `/create-user` with the creation parameters for exactly the requested address. Submitting them for a new address adds that account |

## Left out

- Routing, filters, `inject`, the `lock` accessor and server start-up (src/main.rs:170-224, src/user.rs:114-123) are HTTP plumbing.
- Async and the tokio `Mutex` are not modelled. Each locked section is one atomic method, and concurrent adds are modelled as a series of calls (`AddAll`).
- The GET handlers (`reset_password_get_handler`, `generate_reset_password_handler`, `new_user_get_handler`, `create_user_get_handler`, `list_handler`) only look up and render. They change nothing; the parts they compose (`ResetFrom`, `CreateUrl`, `ListUsers`) are modelled.
- Askama templates and rendering: a reply is the data a page is rendered from. Render failures are not modelled, so the modelled handlers never produce `RenderError`. `RejectionStatus` still maps it. In the source the table changes before rendering (src/main.rs:50-55, 138-145), so a 500 reply can follow a completed reset or an added account; the model's "an error changes nothing" for `CreatePost` holds only because `RenderError` is left out.
- HMAC-SHA3-256 internals and the constant-time comparison are abstracted: the comparison is modelled as equality of tags.
- Base64 transport of tokens and query/form decoding are left out. An undecodable query is rejected by warp before a handler runs (`Rejection.Other`, answered with 404).
- MAC messages are character strings, not UTF-8 bytes. UTF-8 encoding is injective and commutes with concatenation, so this changes nothing about which messages are equal.
- `bcrypt::hash` salts randomly. The model's `bcrypt` is a function of the password and cost, so it does not capture that two hashes of one password differ.
- `Verify.ResetInputUnambiguous`, `Verify.ResetTokenBindsAccount` and `Handlers.ResetPostRejectsForeignToken` cover only expiry texts in chrono's `YYYY-…` and `+…` shapes. The texts of negative years start with '-', and the lemmas say nothing about them. Such an expiry is already past at any real `now`, so src/verify.rs:77 rejects it before the MAC is checked.
- Randomness (`thread_rng`) and the wall clock (`Utc::now`) are parameters.
- `Instant` is an unbounded integer of nanoseconds, so chrono's overflow panic on `now + 3h` is not modelled.
- `unwrap` panics on `new_varkey`, `bcrypt::hash` and `serde_url_params::to_string` are not modelled; the calls are treated as total.
- `User` is a value, not an object. `reset_password`'s in-place field write is modelled as `ResetPassword` returning the changed record, which the handler stores back under the same key.
- The getters `CreateParams::email` and `ResetParams::user_id` are the datatype fields `email` and `userId`.
