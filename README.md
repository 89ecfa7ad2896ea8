# webotp, modelled in Dafny

webotp is a self-hosted vault for one-time passwords. A NestJS server stores, for each user, bindings of an account on a platform to a TOTP secret. The secret is encrypted at rest with AES-256-GCM. From a binding the server produces the current code and the seconds it stays valid. A React client lists the bindings, counts the codes down and regenerates them as they expire. It also manages the platform catalogue and the user's session and settings.

This project models the logic of both sides, as in the source files:

- Server, binding vault:
  - the encrypted-secret format `hex(iv):hex(ciphertext):hex(tag)`;
  - the binding table with its user-scoped paging;
  - the ownership guard (NotFound, then Forbidden) in front of every binding operation;
  - the TOTP validity countdown.
- Server, sessions and accounts:
  - the refresh-token state machine of login, refresh and logout;
  - the ordered guard cascades of the password and username changes.
- Server, platforms and locales:
  - the platform catalogue with name uniqueness and page slicing;
  - the dotted-key message catalogue with its fallback to the default language;
  - the Accept-Language choice.
- Server, request bodies: the DTO acceptance rules.
- Client, stores:
  - the binding store: cursor paging, the code cache and the in-flight set;
  - the platform store;
  - the session store with its once-per-load initializer;
  - the `localStorage` token helpers.
- Client, pages and forms:
  - the Dashboard's countdown tick, code generation, bind submission and delete clean-up;
  - the browser-language chooser;
  - the login form and the settings form.

How the pieces are modelled:

- Pure code becomes functions, with lemmas about them.
- Code that updates state becomes classes in imperative Dafny.
  - The server tables are classes over maps.
  - Each client store is a class whose fields are the store's state.
  - A client action that awaits a request is split into two methods: a `Begin…` method runs when the action is called, and a `Complete…` method runs with the request's outcome.
- The primitives the code calls but does not implement are function-valued parameters: AES-256-GCM, bcrypt, JWT and speakeasy. Each carries only the property the code relies on, stated as a ghost predicate.
- Randomness, the clock and fresh ids are method parameters.

The lower-case base16 of section 8 of RFC 4648 and JavaScript's `split` are modelled exactly. `Buffer.from(s, "hex")` is modelled with Node's leniency. As a result, the format round trip `decrypt(encrypt(s)) == s` is proved from the cipher's own round trip.

## Model

| member | source | states |
|---|---|---|
| Hex.Encode | apps/api/src/user-platforms/user-platforms.repository.ts:28 | an encoding has two digits per byte, all lower-case hex digits |
| Hex.Decode | apps/api/src/user-platforms/user-platforms.repository.ts:32-34 | the lenient decoder yields at most one byte per two characters |
| Hex.Nibble | apps/api/src/user-platforms/user-platforms.repository.ts:32-34 | a digit of either case has its value in 0..15; every other character is refused; lower-case digits are exactly the encoder's alphabet |
| Hex.DecodeEncode | apps/api/src/user-platforms/user-platforms.repository.ts:28-34 | decoding an encoding gives the bytes back |
| Hex.EncodeHasNoColon | apps/api/src/user-platforms/user-platforms.repository.ts:28 | no encoding contains the ':' separator |
| SecretBlob.LoadKey | apps/api/src/user-platforms/user-platforms.repository.ts:11-20 | the key is accepted iff it is present with at least 32 characters; missing or empty gives KeyMissing, shorter gives KeyTooShort |
| SecretBlob.EncryptSecretFields | apps/api/src/user-platforms/user-platforms.repository.ts:22-29 | splitting a blob on ':' gives exactly hex(iv), hex(ciphertext), hex(tag) |
| SecretBlob.EncryptSecretFormat | apps/api/src/user-platforms/user-platforms.repository.ts:23-34 | a blob has three colon-free fields; the first has 24 characters for a 12-byte iv; decoding the first and last fields gives the iv and the tag back |
| SecretBlob.DecryptSecret | apps/api/src/user-platforms/user-platforms.repository.ts:31-40 | decryption fails as malformed exactly when the blob holds fewer than two ':' |
| SecretBlob.DecryptEncrypt | apps/api/src/user-platforms/user-platforms.repository.ts:22-40 | with an authenticated cipher and a 12-byte iv, decryptSecret(encryptSecret(s)) == s |
| SecretBlob.DecryptIgnoresExtraFields | apps/api/src/user-platforms/user-platforms.repository.ts:32 | fields after the third do not change the decryption |
| Totp.ExpiresIn | apps/api/src/user-platforms/user-platforms.service.ts:102-104 | 30 - (t mod 30) lies in 1..30 and is 30 exactly when t is a multiple of 30 |
| Totp.ExpiresInTicks | apps/api/src/user-platforms/user-platforms.service.ts:102-104 | within a step the countdown drops by one per second; at a step boundary it goes from 1 to 30 |
| Totp.ExpiresInReachesNextStep | apps/api/src/user-platforms/user-platforms.service.ts:102-104 | the step counter is unchanged after d seconds iff d < expiresIn |
| Totp.Generate | apps/api/src/user-platforms/user-platforms.service.ts:96-106 | the reported validity lies in 1..30 |
| Totp.SameStepSameToken | apps/api/src/user-platforms/user-platforms.service.ts:96-99 | two instants of the same step give the same code |
| UserPlatformsRepository.Repository.constructor | apps/api/src/user-platforms/user-platforms.repository.ts:11-20 | the repository exists only with a key the initializer accepted, over an empty table |
| UserPlatformsRepository.Repository.RowsOf | apps/api/src/user-platforms/user-platforms.repository.ts:51 | the user's rows, each exactly once, and no other user's |
| UserPlatformsRepository.Repository.FindAllByUserId | apps/api/src/user-platforms/user-platforms.repository.ts:42-63 | the data is at most `limit` of the user's rows, newest first, from offset (page-1)*limit; total counts all of the user's rows |
| UserPlatformsRepository.SortedRowsAreNewestFirst | apps/api/src/user-platforms/user-platforms.repository.ts:50-53 | sorting the user's rows by createdAt descending keeps exactly those rows, each once, in non-increasing createdAt order |
| UserPlatformsRepository.Repository.FindByUserPlatformAndAccount | apps/api/src/user-platforms/user-platforms.repository.ts:82-95 | a found row matches the triple; none is found iff no row matches |
| UserPlatformsRepository.Repository.Create | apps/api/src/user-platforms/user-platforms.repository.ts:97-116 | an empty user id is refused and nothing changes; otherwise exactly one row is added, holding the encrypted secret |
| UserPlatformsRepository.Repository.Update | apps/api/src/user-platforms/user-platforms.repository.ts:118-137 | the account name changes only when given and non-empty; the secret is re-encrypted only when given and non-empty; nothing else changes; an absent id fails |
| UserPlatformsRepository.Repository.Delete | apps/api/src/user-platforms/user-platforms.repository.ts:139-144 | exactly the addressed row is removed |
| UserPlatformsRepository.Repository.GetDecryptedSecret | apps/api/src/user-platforms/user-platforms.repository.ts:146-154 | an absent id fails; otherwise the result is the decryption of the stored blob |
| UserPlatformsService.Service.constructor | apps/api/src/user-platforms/user-platforms.service.ts:15-18 | the service wraps a valid repository |
| UserPlatformsService.Service.FindById | apps/api/src/user-platforms/user-platforms.service.ts:28-44 | NotFound for an absent id, Forbidden for another user's binding, else the binding |
| UserPlatformsService.Service.Create | apps/api/src/user-platforms/user-platforms.service.ts:46-73 | an empty user id fails before any lookup; a taken (user, platform, account) triple is a Conflict; otherwise one row is added; triple uniqueness is preserved |
| UserPlatformsService.InsertKeepsTriplesUnique | apps/api/src/user-platforms/user-platforms.service.ts:54-72 | adding a row whose triple is free keeps triples unique |
| UserPlatformsService.UpdateCanBreakTriplesUnique | apps/api/src/user-platforms/user-platforms.service.ts:75-82 | a concrete table where an update gives two rows the same triple, so update does not preserve uniqueness |
| UserPlatformsService.Service.Update | apps/api/src/user-platforms/user-platforms.service.ts:75-82 | the ownership guard runs before the write; then the repository update's field rules apply |
| UserPlatformsService.Service.Delete | apps/api/src/user-platforms/user-platforms.service.ts:84-87 | the guard runs first; then exactly the addressed binding is removed |
| UserPlatformsService.Service.GenerateOtp | apps/api/src/user-platforms/user-platforms.service.ts:89-107 | the guard runs before decryption; the code is the token of the current step; expiresIn is the seconds left in it, within 1..30 |
| UserPlatformsService.Service.VerifyOtp | apps/api/src/user-platforms/user-platforms.service.ts:109-119 | the guard runs before decryption; then the library's check of the candidate at the current step |
| Accounts.UserTable.constructor | apps/api/src/users/users.service.ts:17-20 | a table whose rows sit under their ids and whose usernames are unique |
| Accounts.UserTable.FindByUsername | apps/api/src/auth/auth.service.ts:22 | the user with that name, or none iff nobody has it |
| Accounts.UserTable.SetRefreshToken | apps/api/src/auth/auth.service.ts:40 | only that user's refresh-token column changes; an absent id changes nothing |
| Accounts.UserTable.SetPassword | apps/api/src/users/users.service.ts:80-82 | only that user's password column changes |
| Accounts.UserTable.SetUsername | apps/api/src/users/users.service.ts:95 | renames one user unless the id is absent or another user holds the name; the table stays well formed |
| AuthService.IssueTokens | apps/api/src/auth/auth.service.ts:87-103 | with a verifier that accepts what it signed, the refresh token verifies to exactly the claims { sub: id, username } |
| AuthService.WithRefreshToken | apps/api/src/auth/auth.service.ts:40 | overwriting one stored token changes that user's refreshToken alone (its id, username and password stay) and leaves every other user unchanged; the same update is made at lines 62-65 and 81 |
| AuthService.Service.constructor | apps/api/src/auth/auth.service.ts:15-19 | the service wraps a valid user table |
| AuthService.Service.Login | apps/api/src/auth/auth.service.ts:21-43 | an unknown name fails Unauthorized whatever the hasher says; a wrong password fails and stores nothing; success stores the issued refresh token on that user |
| AuthService.Service.Refresh | apps/api/src/auth/auth.service.ts:45-73 | every failure (verification, missing user, stored token differs) is Unauthorized and changes nothing; success replaces the stored token with the new one |
| AuthService.Service.Logout | apps/api/src/auth/auth.service.ts:75-85 | a verifiable token clears its subject's stored token; an unverifiable one changes nothing and raises nothing |
| AuthService.ReplayAfterRotationRejected | apps/api/src/auth/auth.service.ts:54-65 | after a rotation to a different token, the old token is refused |
| AuthService.IssuedTokenAccepted | apps/api/src/auth/auth.service.ts:39-55 | the refresh token a login stores is accepted by the next refresh |
| AuthService.LoggedOutRejected | apps/api/src/auth/auth.service.ts:77-81 | after logout no token of that user is accepted |
| UsersService.Service.constructor | apps/api/src/users/users.service.ts:17-20 | the service wraps a valid user table |
| UsersService.Service.FindById | apps/api/src/users/users.service.ts:22-29 | NotFound for an unknown id, else the stored user |
| UsersService.WithPassword | apps/api/src/users/users.service.ts:80-82 | only that user's password changes; its name and refresh token stay |
| UsersService.Service.UpdatePassword | apps/api/src/users/users.service.ts:32-83 | the guards in order: mismatch BadRequest before any lookup, NotFound, Unauthorized, new password equal to the old one BadRequest; success writes hash(newPassword) to the password alone; failures change nothing |
| UsersService.NewPasswordMatches | apps/api/src/users/users.service.ts:74-82 | with bcrypt's promise, the new password matches the stored hash afterwards |
| UsersService.Service.UpdateUsername | apps/api/src/users/users.service.ts:85-96 | Conflict exactly when another user holds the name, so one's own name succeeds; otherwise only the username changes |
| UsersService.RenameKeepsWellFormed | apps/api/src/users/users.service.ts:87-95 | a rename to a free name keeps usernames unique |
| PlatformsService.PlatformTable.constructor | apps/api/src/platforms/platforms.service.ts:13-16 | a table with unique platform names |
| PlatformsService.PlatformTable.All | apps/api/src/platforms/platforms.service.ts:24 | every platform exactly once |
| PlatformsService.SortedIsNewestFirst | apps/api/src/platforms/platforms.service.ts:24 | the sorted listing holds every platform once, newest first |
| PlatformsService.PlatformTable.FindByName | apps/api/src/platforms/platforms.service.ts:45-47 | the platform with that name, or none iff the name is free |
| PlatformsService.PlatformTable.Insert | apps/api/src/platforms/platforms.service.ts:54-56 | adds one platform under a fresh id, unless the name is taken |
| PlatformsService.PlatformTable.Update | apps/api/src/platforms/platforms.service.ts:76 | an omitted name changes nothing; a given one is written as is, unless another row holds it |
| PlatformsService.PlatformTable.Delete | apps/api/src/platforms/platforms.service.ts:81 | removes exactly that row |
| PlatformsService.RenameKeepsWellFormed | apps/api/src/platforms/platforms.service.ts:63-76 | a rename to a name no other platform holds keeps names unique |
| PlatformsService.Service.constructor | apps/api/src/platforms/platforms.service.ts:13-16 | the service wraps a valid table |
| PlatformsService.Service.FindAll | apps/api/src/platforms/platforms.service.ts:18-32 | the slice [(page-1)*limit, (page-1)*limit+limit) of all platforms newest first, by JavaScript's slice rules; for page >= 1 and limit >= 0, at most `limit` items from offset (page-1)*limit; total counts all platforms |
| Listing.JsSlice | apps/api/src/platforms/platforms.service.ts:29 | `Array.prototype.slice` with negative and oversized bounds clamped, never longer than the list |
| Listing.JsSliceIsWindow | apps/api/src/platforms/platforms.service.ts:22-29 | with a non-negative offset and count the slice is the window of at most `count` items at that offset |
| PlatformsService.Service.FindById | apps/api/src/platforms/platforms.service.ts:34-42 | NotFound for an absent id, else the platform |
| PlatformsService.Service.Create | apps/api/src/platforms/platforms.service.ts:44-57 | Conflict when the name exists; otherwise exactly one platform with that name is added; names stay unique |
| PlatformsService.Service.Update | apps/api/src/platforms/platforms.service.ts:59-77 | NotFound first; Conflict iff the name is given, non-empty, differs from the current one and is taken; an omitted or unchanged name never conflicts; only the empty name can reach the table's own uniqueness refusal; NotFound iff the id is absent; any name no other platform holds succeeds with exactly that rename |
| PlatformsService.Service.Delete | apps/api/src/platforms/platforms.service.ts:79-82 | NotFound for an absent id; otherwise exactly that platform is removed |
| I18nService.Catalogue.constructor | apps/api/src/i18n/i18n.service.ts:11-16 | the given tables, with "en" as the default language |
| I18nService.Walk | apps/api/src/i18n/i18n.service.ts:59-74 | an empty path stays put; a walk only reaches a value from an existing start |
| I18nService.WalkStep | apps/api/src/i18n/i18n.service.ts:60-61 | one loop step at position i: descend into the segment, or fail |
| I18nService.Resolve | apps/api/src/i18n/i18n.service.ts:76 | a string leaf is returned; anything else gives the key |
| I18nService.Language | apps/api/src/i18n/i18n.service.ts:53 | the requested language unless it is absent or empty, else the default |
| I18nService.DefaultRoot | apps/api/src/i18n/i18n.service.ts:64 | the default table exists iff the default language is loaded |
| I18nService.StartRoot | apps/api/src/i18n/i18n.service.ts:56-57 | the requested table, or the default one when the requested language is not loaded |
| I18nService.Catalogue.Translate | apps/api/src/i18n/i18n.service.ts:52-77 | the loop computes Translation: the segment walk, restarted in the default language on the first missing segment |
| I18nService.TranslationIsMessageOrKey | apps/api/src/i18n/i18n.service.ts:76 | the result is the key or a string leaf of one of the walked tables, never a nested table |
| I18nService.UnknownLanguageUsesDefault | apps/api/src/i18n/i18n.service.ts:56-57 | a language that is not loaded is served from the default table |
| I18nService.RequestedMessageWins | apps/api/src/i18n/i18n.service.ts:59-76 | a string at the path in the requested language is the result |
| I18nService.MissingSegmentFallsBack | apps/api/src/i18n/i18n.service.ts:62-72 | a missing segment restarts the walk from the default table |
| I18nService.RequestedTableGivesKey | apps/api/src/i18n/i18n.service.ts:59-76 | a path ending on a table in the requested language gives the key, with no fallback |
| I18nService.NoMessageGivesKey | apps/api/src/i18n/i18n.service.ts:69-76 | with no string at the path in either table, the key comes back |
| I18nService.Catalogue.SupportedLanguages | apps/api/src/i18n/i18n.service.ts:79-81 | the loaded language keys, each exactly once |
| I18nService.Catalogue.SetDefaultLanguage | apps/api/src/i18n/i18n.service.ts:83-87 | switches only to a loaded language and otherwise changes nothing |
| LanguageMiddleware.EntryParts | apps/api/src/i18n/language.middleware.ts:17 | `trim().split(";")` always has a first field |
| LanguageMiddleware.BaseCode | apps/api/src/i18n/language.middleware.ts:20 | the text before the first '-', without '-' |
| LanguageMiddleware.ParseEntryShape | apps/api/src/i18n/language.middleware.ts:16-22 | an entry without ';' is its trimmed self at quality 1.0; the base code is the text before the first '-' |
| LanguageMiddleware.ParseInHeaderOrder | apps/api/src/i18n/language.middleware.ts:16 | one parsed entry per comma-separated entry, in header order |
| LanguageMiddleware.TriedOrder | apps/api/src/i18n/language.middleware.ts:26 | the sorted entries are a permutation, in non-increasing quality, and equal qualities keep header order |
| LanguageMiddleware.FirstMatch | apps/api/src/i18n/language.middleware.ts:31-45 | the first position whose compared code is supported, and none before it is |
| LanguageMiddleware.FirstMatchAt | apps/api/src/i18n/language.middleware.ts:31-36 | a position with no match before it and a match at it (or the end) is the first match |
| LanguageMiddleware.Pass | apps/api/src/i18n/language.middleware.ts:31-46 | a pass only ever picks a supported code |
| LanguageMiddleware.FirstSupported | apps/api/src/i18n/language.middleware.ts:31-45 | the loop with `break` returns the first entry in order whose compared code is supported |
| LanguageMiddleware.Use | apps/api/src/i18n/language.middleware.ts:9-52 | the stored language is Choose(header): the full-code pass, then the base-code pass while the result is still "en" |
| LanguageMiddleware.NoHeaderIsEnglish | apps/api/src/i18n/language.middleware.ts:11-14 | without a header (or with an empty one) the language is "en"; line 50 stores it |
| LanguageMiddleware.ChoiceIsSupported | apps/api/src/i18n/language.middleware.ts:12-46 | the choice is "en" or a supported language |
| LanguageMiddleware.FullMatchWins | apps/api/src/i18n/language.middleware.ts:31-39 | a full-code match other than "en" is the answer |
| LanguageMiddleware.BasePassAfterEnglish | apps/api/src/i18n/language.middleware.ts:39-46 | when the full pass ends on "en" or on nothing, the base pass decides and can displace an explicit "en" |
| CharClasses.UnanchoredIsAllClasses | apps/web/src/components/auth/UserSettingsForm.tsx:138 | the unanchored strength pattern matches exactly the strings holding a lowercase letter, an uppercase letter, a digit and one of @$!%*?& |
| CharClasses.UnanchoredHasAllClasses | apps/web/src/components/auth/UserSettingsForm.tsx:138 | a string the pattern accepts holds all four classes |
| CharClasses.AnchoredImpliesUnanchored | apps/api/src/users/dto/update-password.dto.ts:22-25 | the server's anchored pattern is the stricter one |
| CharClasses.SuffixClasses | apps/api/src/users/dto/update-password.dto.ts:22 | classes found in a suffix are in the whole string |
| LoginDto.UsernameRules | apps/api/src/auth/dto/login.dto.ts:4-11 | the empty name, a length outside 3..20 and any character outside [A-Za-z0-9_] each reject; the name is valid iff length in 3..20 and all word characters |
| LoginDto.PasswordRule | apps/api/src/auth/dto/login.dto.ts:13-16 | a password is accepted iff it has at least 8 characters; no upper bound, no character rule |
| UpdateUsernameDto.SameAsLogin | apps/api/src/users/dto/update-username.dto.ts:10-17 | accepts exactly the usernames the login DTO accepts |
| UpdatePasswordDto.AcceptedNewPassword | apps/api/src/users/dto/update-password.dto.ts:16-25 | an accepted new password has length 8..100, starts with [A-Za-z0-9@$!%*?&] and holds all four classes |
| UpdatePasswordDto.AnchorOnlyConstrainsFirst | apps/api/src/users/dto/update-password.dto.ts:22-25 | later characters are unrestricted ("aA1@ xyz" accepted) but the first is not (" aA1@xyz" rejected) |
| UpdatePasswordDto.MismatchPassesDto | apps/api/src/users/dto/update-password.dto.ts:28-30 | a confirmation that differs from the new password passes the DTO; equality is the service's check |
| LoginForm.UsernameError | apps/web/src/components/auth/LoginForm.tsx:28-36 | no username error iff the login DTO accepts the name |
| LoginForm.UsernameRuleOrder | apps/web/src/components/auth/LoginForm.tsx:28-36 | each error key is shown iff its rule is the first that fails: empty, < 3, > 20, charset |
| LoginForm.PasswordError | apps/web/src/components/auth/LoginForm.tsx:38-42 | no password error iff the login DTO accepts the password |
| LoginForm.PasswordRuleOrder | apps/web/src/components/auth/LoginForm.tsx:38-42 | "required" iff empty, "min length" iff 1..7 characters, no error iff at least 8 characters |
| LoginForm.Errors | apps/web/src/components/auth/LoginForm.tsx:25-46 | one entry per failing field, holding that field's first failing rule |
| LoginForm.AcceptsAsDto | apps/web/src/components/auth/LoginForm.tsx:28-42 | the form has no errors for exactly the pairs the login DTO accepts |
| LoginForm.Form.constructor | apps/web/src/components/auth/LoginForm.tsx:7-11 | empty fields and no errors |
| LoginForm.Form.HandleInputChange | apps/web/src/components/auth/LoginForm.tsx:16-23 | updates only the named field and clears only that field's error |
| LoginForm.Form.Validate | apps/web/src/components/auth/LoginForm.tsx:25-46 | the shown errors are Errors(username, password), and the form is valid iff there are none, iff the login DTO accepts |
| LoginForm.Form.HandleSubmit | apps/web/src/components/auth/LoginForm.tsx:48-59 | the credentials reach login iff the form is valid |
| UserSettingsForm.CurrentPasswordError | apps/web/src/components/auth/UserSettingsForm.tsx:130-132 | the current password only has to be non-empty |
| UserSettingsForm.NewPasswordError | apps/web/src/components/auth/UserSettingsForm.tsx:134-140 | no error iff length >= 8 and the unanchored pattern matches |
| UserSettingsForm.ConfirmPasswordError | apps/web/src/components/auth/UserSettingsForm.tsx:142-146 | "required" iff empty; "mismatch" iff non-empty and different; no error iff equal and non-empty |
| UserSettingsForm.UsernameError | apps/web/src/components/auth/UserSettingsForm.tsx:155-163 | no error iff the username DTO accepts the name |
| UserSettingsForm.UsernameRuleOrder | apps/web/src/components/auth/UserSettingsForm.tsx:155-163 | a non-empty name gets exactly the login form's error; the empty one gets the generic "required" key |
| UserSettingsForm.PasswordErrors | apps/web/src/components/auth/UserSettingsForm.tsx:127-150 | one entry per failing field, holding its first failing rule |
| UserSettingsForm.PasswordFormAccepts | apps/web/src/components/auth/UserSettingsForm.tsx:127-150 | valid iff current non-empty, new of length >= 8 with all four classes, and confirmation equal |
| UserSettingsForm.ServerAcceptedPassesForm | apps/web/src/components/auth/UserSettingsForm.tsx:134-146 | every change the server DTO accepts, with a matching confirmation, passes the form |
| UserSettingsForm.FormSkipsAnchor | apps/web/src/components/auth/UserSettingsForm.tsx:138 | " aA1@xyz" passes the form and fails the server DTO |
| UserSettingsForm.FormSkipsCap | apps/web/src/components/auth/UserSettingsForm.tsx:134-140 | a 101-character password passes the form and fails the server DTO |
| UserSettingsForm.Form.constructor | apps/web/src/components/auth/UserSettingsForm.tsx:15-32 | empty inputs, no errors, every password hidden |
| UserSettingsForm.Form.HandlePasswordInputChange | apps/web/src/components/auth/UserSettingsForm.tsx:94-105 | the edited field takes the value and loses its error; a non-empty password-change error in the store is cleared with its success flag; every other field of the form and of the store, including the store's isLoading and error, stays |
| UserSettingsForm.Form.HandleUsernameInputChange | apps/web/src/components/auth/UserSettingsForm.tsx:107-118 | the name takes the value and loses its error; a non-empty rename error in the store is cleared with its success flag; every other field of the form and of the store, including the store's isLoading and error, stays |
| UserSettingsForm.Form.TogglePasswordVisibility | apps/web/src/components/auth/UserSettingsForm.tsx:120-125 | flips only the named flag |
| UserSettingsForm.Form.ValidatePasswordForm | apps/web/src/components/auth/UserSettingsForm.tsx:127-150 | the shown errors are PasswordErrors(...), and valid iff there are none |
| UserSettingsForm.Form.ValidateUsernameForm | apps/web/src/components/auth/UserSettingsForm.tsx:152-167 | an error is shown iff the username DTO rejects the name; valid iff it accepts |
| UserSettingsForm.Form.HandlePasswordSubmit | apps/web/src/components/auth/UserSettingsForm.tsx:169-180 | the change reaches the store iff the password form validates; the shown password errors are PasswordErrors; the inputs, the username side and the visibility flags stay |
| UserSettingsForm.Form.HandleUsernameSubmit | apps/web/src/components/auth/UserSettingsForm.tsx:182-193 | the name reaches the store iff the username form validates; an error is shown iff the name is rejected, holding UsernameError's key; every password-side field stays |
| WebApi.ErrorText | apps/web/src/stores/auth.store.ts:32 | the server's message when it is present and non-empty, else the fallback |
| UserPlatformsStore.Store.constructor | apps/web/src/stores/user-platforms.store.ts:30-41 | the initial state: empty list, page 1, more expected, no cursor, empty cache and in-flight set |
| UserPlatformsStore.Store.BeginLoad | apps/web/src/stores/user-platforms.store.ts:44 | sets loading and clears the error only |
| UserPlatformsStore.Store.CompleteLoad | apps/web/src/stores/user-platforms.store.ts:45-60 | a page replaces the list and hasMore becomes "the cursor is truthy"; a failure sets the error and keeps the list |
| UserPlatformsStore.Store.BeginLoadMore | apps/web/src/stores/user-platforms.store.ts:63-67 | no request iff a page is loading, no more is expected or there is no cursor; then nothing changes |
| UserPlatformsStore.Store.CompleteLoadMore | apps/web/src/stores/user-platforms.store.ts:68-82 | the new page is appended after the list in order; hasMore becomes "the cursor is truthy" |
| UserPlatformsStore.Store.BeginGenerateOtp | apps/web/src/stores/user-platforms.store.ts:120-126 | an id already in flight is refused and nothing changes; otherwise it joins the in-flight set |
| UserPlatformsStore.Store.CompleteGenerateOtp | apps/web/src/stores/user-platforms.store.ts:127-141 | success caches the code under that id alone; failure keeps the cache, sets the error and rethrows; either way the id leaves the in-flight set |
| UserPlatformsStore.Store.ClearError | apps/web/src/stores/user-platforms.store.ts:143 | clears the error only |
| UserPlatformsStore.Store.ClearOtpData | apps/web/src/stores/user-platforms.store.ts:144-148 | removes only the given id from the cache |
| UserPlatformsStore.Store.ResetUserPlatforms | apps/web/src/stores/user-platforms.store.ts:149-155 | list, total, page, hasMore and cursor return to their initial values; the cache is untouched |
| PlatformsStore.ReplaceById | apps/web/src/stores/platforms.store.ts:78-80 | the length is unchanged |
| PlatformsStore.ReplaceAt | apps/web/src/stores/platforms.store.ts:78-80 | every element with the id is the updated record; every other element stays |
| PlatformsStore.ReplaceOnlyTouchesId | apps/web/src/stores/platforms.store.ts:78-80 | removing the id before or after the update gives the same list |
| PlatformsStore.RemoveById | apps/web/src/stores/platforms.store.ts:97 | no element with the id remains |
| PlatformsStore.RemoveKeeps | apps/web/src/stores/platforms.store.ts:97 | every element with another id survives |
| PlatformsStore.RemoveConcat | apps/web/src/stores/platforms.store.ts:97 | the filter keeps the rest in order |
| PlatformsStore.RemoveAbsent | apps/web/src/stores/platforms.store.ts:97 | a list without the id is unchanged |
| PlatformsStore.Store.constructor | apps/web/src/stores/platforms.store.ts:24-32 | empty list, page 1 of 10 |
| PlatformsStore.Store.Begin | apps/web/src/stores/platforms.store.ts:35 | every action starts by setting loading and clearing the error; the same step opens the other actions at lines 57, 74 and 93 |
| PlatformsStore.Store.CompleteLoad | apps/web/src/stores/platforms.store.ts:36-52 | success stores the page, and the pagination records page, limit and the server's total; failure keeps both |
| PlatformsStore.Store.CompleteCreate | apps/web/src/stores/platforms.store.ts:58-70 | success appends the new platform; failure keeps the list, sets the error and rethrows |
| PlatformsStore.Store.CompleteUpdate | apps/web/src/stores/platforms.store.ts:75-89 | success replaces by id; failure keeps the list, sets the error and rethrows |
| PlatformsStore.Store.CompleteDelete | apps/web/src/stores/platforms.store.ts:94-106 | success filters the id out; failure keeps the list, sets the error and rethrows |
| PlatformsStore.Store.ClearError | apps/web/src/stores/platforms.store.ts:110 | clears the error only |
| TokenStorage.GetItem | apps/web/src/services/api/auth.ts:51-52 | null exactly for a missing key |
| TokenStorage.TokensIn | apps/web/src/services/api/auth.ts:50-59 | tokens iff both are stored and non-empty |
| TokenStorage.SetThenGet | apps/web/src/services/api/auth.ts:45-59 | reading back gives the pair stored when both are non-empty, and null otherwise; other keys untouched |
| TokenStorage.ClearThenGet | apps/web/src/services/api/auth.ts:61-68 | after clearing there are no tokens and no session; other keys untouched |
| TokenStorage.AuthenticatedIgnoresRefresh | apps/web/src/services/api/auth.ts:66-68 | the session check looks at the access token alone |
| TokenStorage.TokensImplyAuthenticated | apps/web/src/services/api/auth.ts:50-68 | whenever getTokens gives tokens, isAuthenticated holds |
| TokenStorage.LocalStorage.constructor | apps/web/src/services/api/auth.ts:45-68 | the store holds the given items |
| TokenStorage.LocalStorage.SetTokens | apps/web/src/services/api/auth.ts:45-48 | both tokens are written |
| TokenStorage.LocalStorage.ClearTokens | apps/web/src/services/api/auth.ts:61-64 | both tokens are removed |
| AuthStore.Store.constructor | apps/web/src/stores/auth.store.ts:8-18 | signed out, no flags set |
| AuthStore.Store.Rehydrated | apps/web/src/stores/auth.store.ts:135-141 | only tokens and isAuthenticated come back from what was persisted |
| AuthStore.Store.BeginLogin | apps/web/src/stores/auth.store.ts:21 | sets loading and clears the error only |
| AuthStore.Store.CompleteLogin | apps/web/src/stores/auth.store.ts:22-36 | success stores the tokens and starts the session; failure sets the error, leaves the session and rethrows |
| AuthStore.Store.BeginLoadCurrentUser | apps/web/src/stores/auth.store.ts:40-43 | the profile is requested iff no user is loaded |
| AuthStore.Store.CompleteLoadCurrentUser | apps/web/src/stores/auth.store.ts:44-49 | success keeps the profile; failure changes nothing |
| AuthStore.Store.BeginLogout | apps/web/src/stores/auth.store.ts:54-57 | the server is told iff a non-empty refresh token is held |
| AuthStore.Store.CompleteLogout | apps/web/src/stores/auth.store.ts:58-71 | whatever the server said: tokens removed, tokens null, signed out, no user |
| AuthStore.Store.BeginUpdatePassword | apps/web/src/stores/auth.store.ts:75-79 | sets its loading flag and clears its error and success only |
| AuthStore.Store.CompleteUpdatePassword | apps/web/src/stores/auth.store.ts:80-92 | success sets the flag; failure sets the error and rethrows |
| AuthStore.Store.BeginUpdateUsername | apps/web/src/stores/auth.store.ts:96-100 | sets its loading flag and clears its error and success only |
| AuthStore.Store.CompleteUpdateUsername | apps/web/src/stores/auth.store.ts:101-122 | success sets the flag and renames a loaded user; no user stays no user; failure sets the error and rethrows |
| AuthStore.Store.ClearUpdatePasswordState | apps/web/src/stores/auth.store.ts:125-128 | resets only the password error and success flag |
| AuthStore.Store.ClearUpdateUsernameState | apps/web/src/stores/auth.store.ts:130-133 | resets only the username error and success flag |
| AuthStore.Store.SetSession | apps/web/src/stores/auth.store.ts:163-178 | sets the session fields only |
| AuthStore.Initializer.constructor | apps/web/src/stores/auth.store.ts:144 | the flag starts cleared, with no run |
| AuthStore.Initializer.BeginInitialize | apps/web/src/stores/auth.store.ts:146-161 | no window or a set flag does nothing; otherwise the flag is set and the body runs, at most once per page load |
| AuthStore.Initializer.CompleteInitialize | apps/web/src/stores/auth.store.ts:161-179 | success installs the session; failure clears the stored tokens and the session; the loading flag, the error and the six update flags stay |
| WebI18n.BrowserLanguage | apps/web/src/i18n/index.ts:23-43 | the result is always en, zh-CN or zh-TW |
| WebI18n.SavedLanguageWins | apps/web/src/i18n/index.ts:27-32 | a saved shipped language is returned unchanged |
| WebI18n.DetectedLanguage | apps/web/src/i18n/index.ts:35-42 | otherwise zh-TW iff zh-TW, zh-HK or zh-MO; zh-CN iff another "zh" language; en iff not "zh" |
| WebI18n.NoWindowIsEnglish | apps/web/src/i18n/index.ts:24 | without a window the result is en |
| Dashboard.TickPartition | apps/web/src/pages/Dashboard.tsx:135-151 | after a tick each countdown is dropped (binding gone), one lower (positive), or expired (zero) and reported |
| Dashboard.TickShrinks | apps/web/src/pages/Dashboard.tsx:130-163 | a tick adds no binding, and over no countdowns it changes nothing |
| Dashboard.CountdownRunsDown | apps/web/src/pages/Dashboard.tsx:143-151 | a loaded code reads expiresIn - n after n ticks, and is handed back for regeneration when it reaches zero |
| Dashboard.Page.constructor | apps/web/src/pages/Dashboard.tsx:46-57 | no countdowns, no refreshing marks, an empty bind form |
| Dashboard.Page.Tick | apps/web/src/pages/Dashboard.tsx:126-168 | the loop over the countdowns computes Ticked and Expired; nothing else on the page changes |
| Dashboard.Page.BeginGenerateOtp | apps/web/src/pages/Dashboard.tsx:193-219 | a binding no longer loaded loses its code and countdown; an id already refreshing is ignored; otherwise it is marked and requested; the mark is removed when the store refuses; the store's in-flight set gains the id and its error is cleared exactly when the request goes out; its list and paging fields stay |
| Dashboard.Page.CompleteGenerateOtp | apps/web/src/pages/Dashboard.tsx:219-239 | success sets the countdown to the server's expiresIn and caches the code; failure keeps the cache and stores the generate-failed error; either way the mark and the in-flight entry are removed and the store's list and paging fields stay |
| Dashboard.BindErrors | apps/web/src/pages/Dashboard.tsx:251-259 | one "required" error per empty field and no other |
| Dashboard.CleanedBinding | apps/web/src/pages/Dashboard.tsx:263-266 | ids and names unchanged; the sent secret holds no whitespace |
| Dashboard.CleanedSecretJoinsGroups | apps/web/src/pages/Dashboard.tsx:263-266 | a secret typed in groups is sent as the groups run together |
| Dashboard.CodesToGenerate | apps/web/src/pages/Dashboard.tsx:81-89 | the effect on a new list requests a code for exactly the loaded bindings without a cached code, at most one per binding |
| Dashboard.Page.DialogClosed | apps/web/src/pages/Dashboard.tsx:110-115 | closing the bind dialog clears its field errors and the shown error, and nothing else |
| Dashboard.Page.ShowStoreError | apps/web/src/pages/Dashboard.tsx:103-107 | a non-empty platform-store error becomes the shown error; an empty or absent one leaves it |
| Dashboard.Page.SubmitBinding | apps/web/src/pages/Dashboard.tsx:245-266 | a request is sent iff no field is empty, with the cleaned secret; the shown errors are BindErrors |
| Dashboard.Page.CompleteBinding | apps/web/src/pages/Dashboard.tsx:267-275 | success closes the dialog and empties the form and, when the dialog was open, the closing effect of lines 110-115 clears the field errors and the shown error; failure shows the message |
| Dashboard.Page.CompleteDeletePlatform | apps/web/src/pages/Dashboard.tsx:278-303 | a deleted binding loses its code, its countdown and its refreshing mark; a failure changes nothing; the store's error, in-flight set, list and paging fields stay |
| Strings.Split | apps/api/src/i18n/i18n.service.ts:54 | JavaScript's `split` on one character always gives at least one field |
| Strings.SplitFields | apps/api/src/user-platforms/user-platforms.repository.ts:32 | no field of a split holds the separator |
| Strings.SplitCount | apps/api/src/user-platforms/user-platforms.repository.ts:32 | a split has one field more than the input has separators |
| Strings.JoinSplit | apps/api/src/i18n/i18n.service.ts:54 | joining the fields with the separator gives the input back |
| Strings.SplitJoin | apps/api/src/user-platforms/user-platforms.repository.ts:28-32 | splitting a join of separator-free fields gives the fields back |
| Strings.Trim | apps/api/src/i18n/language.middleware.ts:17 | `trim()` leaves no whitespace at either end and keeps an already trimmed string |
| Strings.RemoveWhitespace | apps/web/src/pages/Dashboard.tsx:265 | `replace(/\s+/g, "")` leaves no whitespace, never lengthens, and keeps a whitespace-free string |
| Strings.RemoveWhitespaceKeepsOthers | apps/web/src/pages/Dashboard.tsx:265 | the removal works piecewise, so every other character is kept in order |
| Listing.SortDesc | apps/api/src/i18n/language.middleware.ts:26 | the sort by descending key is a permutation in non-increasing key order |
| Listing.SortDescStable | apps/api/src/i18n/language.middleware.ts:26 | the sort is stable: the elements of each key keep their input order |
| Listing.Window | apps/api/src/user-platforms/user-platforms.repository.ts:47-55 | skip/take: at most `take` elements, each the one `skip` places further in the input, and exactly min(take, rest) of them |

## Left out

- Cryptography is abstract. AES-256-GCM, `crypto.randomBytes`, bcrypt, JWT signing and verification, and speakeasy's HMAC-SHA1 TOTP are function-valued parameters. Each carries only the property the code relies on.
- Nonce uniqueness is a claim about randomness and is not modelled. The nonce is a parameter.
- The key check enforces only the 32-character lower bound. Node's own rejection of a key of the wrong byte length is not modelled.
- Token expiry and the secrets' default values from the environment are not modelled.
- The base32 decoding of the TOTP secret and speakeasy's ±1-step verify window are inside `Totp.Generator`. verifyOTP is modelled as the guard plus the library call.
- The server reads the clock twice: inside speakeasy and at user-platforms.service.ts line 102. The model reads it once, as the parameter `t`.
- UserPlatformsRepository.Repository.Create: the Prisma `connect`s of user-platforms.repository.ts lines 109-110 fail for an unknown user or platform id. The binding table knows no user or platform tables, so the model inserts the row.
- I18nService.Catalogue.SetDefaultLanguage and I18nService.Catalogue.Translate use own-property semantics. The source's `in` and truthiness tests (i18n.service.ts lines 60, 67 and 84) also see inherited members of `Object.prototype`, such as `constructor` and `toString`, and the model does not.
- I18nService.Node holds only strings and nested tables. JSON numbers, booleans, null and arrays in a locale file have no counterpart and are taken to be absent.
- Prisma is replaced by in-memory maps. The repositories of the auth, users and platforms modules are the classes Accounts.UserTable and PlatformsService.PlatformTable.
  - The `include: { platform: true }` join is not modelled.
  - The `updatedAt` column is not modelled.
- UserPlatformsRepository.Repository.FindAllByUserId requires page ≥ 1 and limit ≥ 0. Prisma's handling of a negative `skip` or `take` is not modelled.
- The service's `findAllByUserId` only forwards to the repository, so it has no member of its own.
- The model holds no translated message texts. translate() is called on the server with a key, and t() is called on the client with a key; both calls are left out. Every error holds that key instead.
- The client stores fall back to `i18n.t(key)`; the model stores the key itself.
- The literal fallbacks of the auth store, such as 'Login failed', are kept as written.
- `loadTranslations` reads the locale files from disk. That file I/O is not modelled: the tables are given to the constructor.
- LanguageMiddleware.Use takes the weight parser `parseQ` as a parameter; `parseFloat` is not modelled.
  - A weight is an integer in thousandths.
  - A malformed q value (NaN in the source) is out of scope.
  - `*` and q=0 get no special meaning, as in the code.
- Strings are sequences of characters without line terminators. The subtlety that the regex `.` excludes newlines is not modelled, and lengths are counted in characters, not UTF-16 code units.
- Values that are not strings are not modelled for the DTOs. class-validator's `@IsString` is therefore not modelled.
- Asynchronous interleavings are not modelled. Each store action is a Begin/Complete pair run without other actions in between, and the HTTP requests are not performed: their outcomes are given.
- `createUserPlatform` and `deleteUserPlatform` of the web binding store are not modelled. They call the server and then reload through `loadUserPlatforms`, and that reload is modelled.
- The Dashboard's effects are methods and functions that the caller runs when their dependencies change: CodesToGenerate, DialogClosed and ShowStoreError. React's scheduling of them is not modelled. Three effects are not modelled at all: the one-time loads of Dashboard.tsx lines 73-78 and 91-101, and the platform-management dialog's closing effect at lines 118-123, whose dialog is not part of this model.
- The Dashboard's interval and `setTimeout` scheduling are not modelled. The tick is a method that returns the expired bindings as a set, so the order in which they are regenerated is not modelled either.
- The Dashboard's `refreshingPlatforms` state and its ref are always updated together, so in the model they are one set.
- `getBrowserLanguage` takes the browser language as given. The `navigator.userLanguage` fallback is not modelled.
- JSX rendering, the DOM, IntersectionObserver, the clipboard, the theme store, the language switcher, App.tsx and main.tsx are not modelled.
- main.tsx calls a `handleTokenExpired` action that auth.store.ts does not define.
- The HTTP client (axios interceptors and retry), the controllers, the modules, dependency injection, the JWT strategies and the decorators are not modelled.
- The stale unit test of a `usersService.update` that does not exist is not modelled.
- The DTOs of create-user-platform and create-platform contain only non-empty checks, and they are not modelled separately.
- TokenStorage.LocalStorage.GetTokens states no contract of its own. It is TokensIn over the stored items, and the lemmas about TokensIn state its properties.
