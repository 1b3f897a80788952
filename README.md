# tweets2cash account backend in Dafny

tweets2cash is a Django REST account service. This project models its
core and proves properties of the model. The core covers:

- the user record and its `save()` and `cancel()` transitions;
- the account endpoints of the users viewset: e-mail change request and
  confirmation, password recovery and reset, password change,
  cancellation by token and by `DELETE`;
- the account lookup by username or e-mail;
- the visibility filter and the object permission;
- the throttles' scope bindings and their status-conditional recording step;
- registration and login dispatch with the register validator;
- the front-end URL table and link builder;
- the locale list and the version string.

Layout, one module per source file, plus four helper modules:

- `Wrappers` holds `Option`, `Result` and `Outcome`.
- `Strings` holds decimal rendering, code-point order, and `split`/`join`.
- `Queries` holds the ORM's `filter`/`get` over a row sequence.
- `RestFramework` holds the framework exceptions, the permission classes,
  and the `CharField` and `validate_email` rules.
- `Throttling` holds the throttle declarations and the cache.

The user table is the class `UsersApi.UserStore`, whose field `users`
holds one record per primary key. Every endpoint that writes is a method
of it with a `modifies` clause. Its `ensures` give the whole new table,
so the frame ("nothing else changes") is part of each contract. The
invariant `WellFormed` holds after every call. It keeps usernames and
e-mails unique (the database's unique columns), and keeps no recovery
token or e-mail token held twice. A write that breaks a unique column is
modelled as `DatabaseIntegrityError`.

Some outside behaviour comes in as parameters instead:

- the value `uuid1()` yields is `freshToken`, a string no row holds;
- the unique username `slugify_uniquely` yields is `slug`, a string no
  row holds as its username;
- password hashing is `hasher`;
- `__iexact` case folding is `fold`;
- the format part of Django's `validate_email` is `wellFormed`;
- Python's Unicode `\w` is `isWord`;
- the thumbnailer is `thumbnail`;
- the token verifier `get_user_for_token` is `verify`;
- `public_register`, `make_auth_response_data` and the auth plugin table
  are `register`, `respond` and `plugins`;
- the settings `PUBLIC_REGISTER_ENABLED`, `USER_EMAIL_ALLOWED_DOMAINS`,
  `MAX_AGE_CANCEL_ACCOUNT` and the site record are plain arguments.

Two behaviours of the code that a reader might not expect:

- A second `cancel()` is not idempotent. It regenerates the username and
  e-mail (`UserModels.CancelNotIdempotent`). Only the `/cancel` endpoint
  refuses an inactive account; `destroy` does not.
- Asking to change to one's own current e-mail gets "Duplicated email".
  The duplicate query counts the caller's own row, and it is checked
  before the format check.

## Model

| member | source | states |
|---|---|---|
| UserModels.SetPasswordThenCheck | tweets2cash/users/api.py:213-216 | after `change_password` sets a password, `check_password` accepts the raw value it was set from, and any other raw value exactly when it hashes alike |
| UserModels.IsStaff | tweets2cash/users/models.py:99-101 | staff status is exactly the superuser flag |
| UserModels.HasPerm | tweets2cash/users/models.py:81-85 | granted exactly to an active staff member, whatever permission is asked; an inactive account holds none |
| UserModels.HasPerms | tweets2cash/users/models.py:87-91 | the list is not inspected: it agrees with `has_perm` for every single permission |
| UserModels.HasModulePerms | tweets2cash/users/models.py:93-97 | the app label is not inspected: it agrees with `has_perm` for every permission |
| UserModels.PermissionChecksAgree | tweets2cash/users/models.py:81-101 | `has_perm`, `has_perms` and `has_module_perms` all hold exactly for an active superuser, whatever is asked; `is_staff` is the superuser flag |
| UserModels.FullName | tweets2cash/users/models.py:155-156 | the full name is `full_name` when non-empty, else `username` when non-empty, else `email`; it is empty only when all three are |
| UserModels.EmailDefaultProperties | tweets2cash/users/models.py:158-162 | `save` never leaves the e-mail empty; it keeps a non-empty one, fills an empty one with `username + "@tweets2cash.com"`, touches no other field, and is idempotent |
| UserModels.Save | tweets2cash/users/models.py:158-162 | the saved record is the e-mail-defaulted input and has a non-empty e-mail |
| UserModels.CancelScrubsAccount | tweets2cash/users/models.py:164-175 | after `cancel`: inactive, "Deleted user", empty bio, no token, no photo, unusable password, generated username, e-mail derived from it; id, e-mail token, pending e-mail, superuser flag and join date untouched |
| UserModels.CancelledAccountIsInert | tweets2cash/users/models.py:151-175 | a cancelled account checks no password, holds no permission, is displayed as "Deleted user" (`get_full_name`) and has its generated username as short name (`get_short_name`) |
| UserModels.ShortName | tweets2cash/users/models.py:151-153 | the short name is the username, whatever the full name; it is the full name too when `full_name` is empty |
| UserModels.CancelNotIdempotent | tweets2cash/users/models.py:166-168 | cancelling twice with two generated usernames gives a record different from the first cancellation |
| UserModels.Cancel | tweets2cash/users/models.py:164-175 | the eight assignments followed by `save()` produce exactly the cancelled record |
| Queries.Get | tweets2cash/users/api.py:184-187 | `objects.get`: the unique matching row; does-not-exist exactly when nothing matches, multiple-objects exactly when two rows match |
| UsersServices.LookupIndex | tweets2cash/users/services.py:19-32 | the account found matches the input when case is ignored and, if several accounts match that way, matches exactly; failure with "Username or password does not match user." exactly when no account survives; the account found comes first in username order among the survivors |
| UsersServices.LookupSingleLooseMatch | tweets2cash/users/services.py:21-31 | a single case-insensitive match is returned even when its case differs |
| UsersServices.LookupAmbiguousWithoutExact | tweets2cash/users/services.py:24-29 | several case-insensitive matches and no exact one make the lookup fail |
| UsersServices.LookupPrefersExact | tweets2cash/users/services.py:24-31 | an exact match always lets the lookup succeed, and among several case-insensitive matches it returns an exact one |
| UsersServices.GetAndValidateUser | tweets2cash/users/services.py:35-48 | succeeds exactly when the lookup succeeds and the password checks, returning the looked-up account; otherwise it fails with the same message |
| UsersServices.CancelledAccountNeverAuthenticates | tweets2cash/users/services.py:44-48 | no password authenticates a cancelled account |
| UsersServices.PhotoUrl | tweets2cash/users/services.py:51-59 | no URL for a missing or empty photo; otherwise the thumbnailer's answer |
| UsersServices.UserPhotoUrl | tweets2cash/users/services.py:62-66 | no URL without a user; a URL implies a user with a photo |
| UsersSerializers.FieldListFacts | tweets2cash/users/serializers.py:18-46 | admin fields are the user fields followed by 'email'; both sets coincide; `username` is read-only in `UserSerializer`; the photo validator exposes only `photo` |
| UsersSerializers.ValidatorsAccept | tweets2cash/users/serializers.py:49-59 | recovery needs a token of 1 to 200 characters and a password of at least 6; e-mail change and cancellation each need a token of 1 to 200 characters; a missing field is invalid |
| UsersFilters.Distinct | tweets2cash/users/filters.py:20 | `distinct()` removes repeats, keeps every row, and is the identity on a repeat-free input |
| UsersFilters.FilterQueryset | tweets2cash/users/filters.py:14-20 | no repeats, never a row outside the input; a superuser gets every row (the input itself when repeat-free); anyone else gets exactly the rows with their username |
| UsersFilters.NormalUserSeesOnlyThemself | tweets2cash/users/filters.py:17-18 | every row a normal user sees has that user's username |
| UsersPermissions.HasObjectPermission | tweets2cash/users/permissions.py:8-9 | granted only with an object and an authenticated requester, and then exactly when the primary keys are equal |
| UsersPermissions.PermissionIgnoresSuperuser | tweets2cash/users/permissions.py:8-9 | denied without an object and for an anonymous requester; the superuser flag does not change the decision |
| UsersApi.ValidateAllowedDomains | tweets2cash/users/api.py:95-100 | fails for lack of a domain exactly when the value has no '@'; a domain is refused only under a non-empty allow-list |
| UsersApi.UnrestrictedDomains | tweets2cash/users/api.py:95-100 | a `None` or empty allow-list admits exactly the values that have an '@' |
| UsersApi.RestrictedDomains | tweets2cash/users/api.py:95-100 | with a non-empty allow-list, `local@domain` passes exactly when `domain` is listed, and is otherwise refused as not allowed |
| UsersApi.ValidEmailHasDomain | tweets2cash/users/api.py:116-120 | an address that passed `validate_email` always has a domain part, so `split("@")[1]` cannot fail after it |
| UsersApi.DestroyLookup | tweets2cash/users/api.py:143-144 | in a well-formed table, `get_object()` finds row `pk` exactly when it exists and is the caller's own or the caller is a superuser |
| UsersApi.UserStore.Commit | tweets2cash/users/models.py:106-116 | the row is written unless it would duplicate another row's username or e-mail, which is an integrity error; the invariant is kept |
| UsersApi.UserStore.PartialUpdateEmail | tweets2cash/users/api.py:110-132 | no e-mail: nothing happens; an e-mail any row holds, the caller's own included: "Duplicated email", nothing changes; otherwise an address failing the format or domain check: "Not valid email", nothing changes; otherwise only the caller's `new_email` and `email_token` change, to the request and a fresh token, and `email` stays |
| UsersApi.ConfirmedRow | tweets2cash/users/api.py:274-280 | the confirmed row takes the pending address, or the default `username@tweets2cash.com` when there is none; `new_email` and `email_token` are cleared; no other field changes |
| UsersApi.UserStore.ChangeEmail | tweets2cash/users/api.py:257-287 | an invalid or unknown token fails with the fixed message and changes nothing; the holder of the token gets its pending address (or the default one) and loses `new_email` and `email_token`, unless the address is now taken; after success no row holds the token |
| UsersApi.UserStore.PasswordRecovery | tweets2cash/users/api.py:157-172 | a blank username fails; a failed lookup passes its message on; otherwise only the found account's `token` changes, to a fresh value, and its previous token is held by no row |
| UsersApi.UserStore.ChangePasswordFromRecovery | tweets2cash/users/api.py:174-193 | an invalid form or unknown token fails with "Token is invalid" and changes nothing; the token's holder gets the new password and loses the token; after success no row holds the token |
| UsersApi.UserStore.ChangePassword | tweets2cash/users/api.py:195-218 | the failures come in order (current missing, new missing, new shorter than 6, current wrong); the password changes exactly when all checks pass, and nothing else changes |
| UsersApi.UserStore.CancelUser | tweets2cash/users/models.py:164-175 | the row becomes its cancelled record; afterwards its e-mail is its username plus the default domain and no other row shares its username |
| UsersApi.CancelTokenOwner | tweets2cash/users/api.py:306-312 | an owner is found exactly when the token verifies for the "cancel_account" purpose to an existing primary key, and it is that key |
| UsersApi.UserStore.CancelAccount | tweets2cash/users/api.py:297-318 | an invalid form, a token that does not verify, or a token of an inactive account is refused and changes nothing; otherwise that account, and only it, is cancelled |
| UsersApi.UserStore.Destroy | tweets2cash/users/api.py:143-149 | another user's row, or a missing one, is not found for a normal user; a superuser is denied on another's row; one's own row is cancelled, without any check of `is_active` |
| UsersApi.ConfirmationIsSingleUse | tweets2cash/users/api.py:267-280 | an e-mail token that confirmed once is refused the second time |
| UsersApi.RecoveryIsSingleUse | tweets2cash/users/api.py:184-191 | a recovery token that reset the password once is refused the second time |
| UsersApi.Create | tweets2cash/users/api.py:73-74 | creating a user here always fails as not supported |
| UsersApi.SerializerFor | tweets2cash/users/api.py:43-55 | the admin serializer exactly for `update`, `by_username` and `retrieve` by a superuser; the photo validator exactly for `change_avatar`; `partial_update` always uses the user serializer |
| UsersApi.DetailReadsShowEmail | tweets2cash/users/api.py:43-55 | whichever serializer a detail read picks, it exposes the e-mail |
| UsersApi.UsersViewSet.GetPermissions | tweets2cash/users/api.py:67-71 | `password_recovery` and `by_username` reassign the instance's classes to `AllowAny`; the current classes are returned |
| UsersApi.PermissionsFor | tweets2cash/users/api.py:35-71 | on a new viewset the two public actions are open to anyone; every other action needs an authenticated requester, and the owner check `IsTheSameUser` is listed too but applies only where an object is fetched (destroy, retrieve, update) |
| Throttling.ScopesFor | tweets2cash/users/api.py:40 | the scopes of the throttle classes whose action list contains the action, and no others |
| Throttling.Cache.Set | tweets2cash/auth/throttling.py:13 | the key is bound to the history and timeout; the other keys stay |
| AuthThrottling.AuthScopes | tweets2cash/auth/throttling.py:6-8 | "create" falls under "login-fail" alone, "register" under "register-success" alone, every other action under none |
| AuthThrottling.RecordingRateThrottle.LoginFailRateThrottle | tweets2cash/auth/throttling.py:6-8 | the login throttle has scope "login-fail", throttles only "create", and records status 400 |
| AuthThrottling.RecordingRateThrottle.RegisterSuccessRateThrottle | tweets2cash/auth/throttling.py:17-19 | the registration throttle has scope "register-success", throttles only "register", and records status 201 |
| AuthThrottling.RecordingRateThrottle.ThrottleSuccess | tweets2cash/auth/throttling.py:10-25 | always true; with the recorded status, `now` goes in front of the history, which grows by one and is stored under the key for `duration`; with no response or another status, history and cache are unchanged |
| AuthThrottling.FailedRegistrationKeepsBudget | tweets2cash/auth/throttling.py:20-25 | a 400 registration leaves the register-success history as it was; a following 201 is recorded and stored |
| AuthThrottling.LoginFailuresAreCounted | tweets2cash/auth/throttling.py:9-14 | a login response is recorded exactly when its status is 400 |
| UsersThrottling.UsersScopes | tweets2cash/users/throttling.py:6-13 | `by_username` and `retrieve` fall under "user-detail" (global), `update` and `partial_update` under "user-update" (per user), every other action under none |
| UsersThrottling.ScopesDisjoint | tweets2cash/users/throttling.py:8-13 | the two action lists are disjoint, so no action falls under more than one scope |
| AuthValidators.ValidateUsername | tweets2cash/auth/validators.py:18-26 | accepted exactly when the pattern matches, and then returned unchanged; otherwise the fixed message |
| AuthValidators.UsernameAcceptance | tweets2cash/auth/validators.py:18-26 | a value without a final newline is accepted exactly when it is non-empty and every character is a word character, '.' or '-' |
| AuthValidators.PatternAllowsFinalNewline | tweets2cash/auth/validators.py:19 | the pattern also accepts a valid username followed by one newline, which is not made of class characters |
| AuthValidators.FieldErrors | tweets2cash/auth/validators.py:12-26 | a field is reported exactly when it fails its rule, and only the four fields can be |
| AuthValidators.Validate | tweets2cash/auth/validators.py:12-30 | valid exactly when all four fields pass; the data then copies the form, with an optional full name of at most 256 characters, an e-mail of at most 255 with an '@', a username of at most 150 and a password of at least 4 |
| AuthValidators.SpacedUsernameRejected | tweets2cash/auth/validators.py:18-25 | "User Examp:/e" is refused |
| AuthValidators.LongUsernameRejected | tweets2cash/auth/validators.py:15 | a username over 150 characters is reported as an error |
| AuthApi.ParseData | tweets2cash/auth/api.py:23-37 | the validator's data when valid; otherwise a validation error carrying exactly its errors |
| AuthApi.ParsePublicRegisterData | tweets2cash/auth/api.py:40 | parsing with the public register validator, with the failing field names as errors |
| AuthApi.PublicRegister | tweets2cash/auth/api.py:53-64 | refused while registration is disabled, whatever the form; invalid data is a validation error; an integrity error of the registration becomes a bad request with its detail; success is `Created` with the response data of the new user |
| AuthApi.Register | tweets2cash/auth/api.py:66-71 | any type other than "public" is refused with "invalid register type" |
| AuthApi.DisabledRegisterIgnoresForm | tweets2cash/auth/api.py:54-55 | disabled registration gives the same refusal for every form |
| AuthApi.Login | tweets2cash/auth/api.py:74-84 | answered by the registered plugin with status 200 exactly when the type is registered; otherwise "invalid login type" |
| AuthApi.AuthViewSet.GetPermissions | tweets2cash/auth/api.py:47-51 | `create` and `register` reassign the instance's classes to `AllowAny`; the current classes are returned |
| AuthApi.PermissionsFor | tweets2cash/auth/api.py:42-51 | on a new viewset every action, login and registration included, is `AllowAny` |
| FrontUrls.Format | tweets2cash/front/templatetags/functions.py:15 | `format(*args)` succeeds exactly when every field index has an argument; a template without fields formats to its own text |
| FrontUrls.FormatOnePlaceholder | tweets2cash/front/urls.py:9-11 | a literal prefix followed by `{0}` formats to the prefix plus the first argument |
| FrontUrls.UrlTableFacts | tweets2cash/front/urls.py:3-13 | exactly the seven keys; every path starts with '/'; the three token pages have one `{0}` and the others none |
| FrontFunctions.SchemePrefix | tweets2cash/front/templatetags/functions.py:14 | `scheme + ":"` for a non-empty scheme, "" otherwise |
| FrontFunctions.Resolve | tweets2cash/front/templatetags/functions.py:10-16 | an unknown page fails at the table lookup; a known one fails exactly when arguments are missing; otherwise the prefix, "//", the domain and the formatted path |
| FrontFunctions.HomeOnWebsite | tweets2cash/front/templatetags/functions.py:11-16 | "home" on the "website" site is "https://localhost.com/" |
| FrontFunctions.TokenLinks | tweets2cash/front/urls.py:9-11 | on the "website" site each token page resolves to `https://localhost.com/<page>/` followed by the token |
| FrontFunctions.MissingTokenFails | tweets2cash/front/templatetags/functions.py:15 | a token page without an argument cannot be resolved |
| LocaleApi.Locales | tweets2cash/locale/api.py:12-14 | one entry per language, in order, with code and name copied and `bidi` true exactly for a right-to-left code |
| LocaleApi.ConfiguredLocales | tweets2cash/locale/api.py:13 | with the configured languages the list is the single left-to-right "en" entry |
| SettingsVersion.ShortVersion | settings/__init__.py:13-14 | the major number, a dot, then the minor number |
| SettingsVersion.GetVersion | settings/__init__.py:16-25 | "a.b.c" for a non-zero micro, whatever the tag; "a.b" for a final release; otherwise "a.b tag", plus " x" when a fifth element exists; the short version is always a prefix |
| SettingsVersion.CurrentVersionStrings | settings/__init__.py:11-25 | the current version reads "1.0" short and "1.0 dev" in full |
| SettingsVersion.MicroVersionsDistinct | settings/__init__.py:19-20 | with a non-zero micro, two versions print equal exactly when their micros are equal |
| Strings.ParseNatToString | settings/__init__.py:14 | the decimal rendering of a number reads back as that number |
| Strings.SplitAfterFirst | tweets2cash/users/api.py:97 | `split` on a separator gives the text before its first occurrence, then the split of the rest |
| Strings.SplitHasSecondPiece | tweets2cash/users/api.py:97 | `split(sep)` has a second piece exactly when the separator occurs |

## Left out

- The throttle admission check (`SimpleRateThrottle`, the two mixins and
  `UserRateThrottle`) is outside this model. Only the declarations and the
  recording step are modelled. The "second detail read gets 429" behaviour
  depends on that check and is not stated.
- Throttle rates are not modelled: all rates in `settings/common.py` are
  `None`.
- Token signing (`get_token_for_user`, `get_user_for_token`) is the
  abstract `verify`. The call of `get_token_for_user` in `save()` does not
  change the row and is left out.
- What the `{0}` fields of the URL table carry (recovery token, e-mail
  token, cancellation token) is written only in comments, because the
  callers that fill them are not part of this model.
- Mail, signals, thumbnails, gravatar and file paths are left out.
- FrontFunctions.SchemePrefix and FrontFunctions.Resolve take the site
  record as an argument, because `get_site_by_id` is a settings lookup.
- The `advisory_lock` around `cancel()` and transactions are left out.
  Every operation is atomic and sequential.
- The generic part of `partial_update` (the serializer update of the other
  fields) is left out; only its e-mail step is modelled. So are
  `change_avatar`, `remove_avatar`, `me`, `by_username`, `list` and
  `retrieve`; only their serializer and permission choices are modelled.
- AuthValidators.FieldErrors and AuthValidators.Validate name only the
  failing fields, not the framework's message texts. A `CharField`'s
  default whitespace trimming is not applied either. With trimming, the
  newline that AuthValidators.PatternAllowsFinalNewline lets through
  would be cut before the pattern runs.
- UsersSerializers.ValidatorsAccept: applies the `CharField` rules
  without trimming, so a value of only spaces counts as non-blank and
  lengths are measured before trimming.
- UsersApi.UserStore.ChangePasswordFromRecovery: hashes the submitted
  password untrimmed, where `validator.data` would hold it trimmed.
- JSON `null` and an absent field are both `None`.
- UsersServices.LookupIndex orders usernames by code point. The
  database's collation may order them differently.
- UsersApi.UserStore.CancelUser takes the generated username as an
  argument, only required to be held by no row. Its "deleted-user-"
  timestamp prefix comes from `slugify_uniquely`, which is not part of
  this model.
- UsersApi.UserStore.ChangeEmail maps a multiple-objects lookup to the
  same refusal as an unknown token. The table invariant keeps e-mail
  tokens unique, so this case cannot arise.
- UsersApi.UserStore.ChangePasswordFromRecovery maps a multiple-objects
  lookup on `token` to the same refusal as an unknown token. The table
  invariant keeps recovery tokens unique, so this case cannot arise.
