/** Field lists and request validators of `tweets2cash/users/serializers.py`. */
module UsersSerializers {
  import opened Wrappers
  import opened RestFramework

  datatype SerializerClass = UserSerializer | UserAdminSerializer | UserPhotoValidator

  const UserFields: seq<string> :=
    ["id", "username", "email", "full_name", "bio", "is_active", "photo", "big_photo", "gravatar_id"]

  /** `UserSerializer.Meta.fields + ('email', )` */
  const AdminFields: seq<string> := UserFields + ["email"]

  const PhotoFields: seq<string> := ["photo"]

  /** Fields `UserSerializer` declares itself: the three method fields
      (always read-only) and `username`, declared `read_only=True`. */
  const UserReadOnlyFields: seq<string> := ["photo", "big_photo", "gravatar_id", "username"]

  function Fields(c: SerializerClass): seq<string>
  {
    match c
    case UserSerializer => UserFields
    case UserAdminSerializer => AdminFields
    case UserPhotoValidator => PhotoFields
  }

  /** The admin field list repeats 'email', which the user list already has:
      both serializers expose the same set of fields. `username` cannot be
      written through `UserSerializer`; the photo validator exposes only
      `photo`. */
  lemma FieldListFacts()
    ensures Fields(UserAdminSerializer) == Fields(UserSerializer) + ["email"]
    ensures "email" in Fields(UserSerializer)
    ensures forall f :: f in Fields(UserAdminSerializer) <==> f in Fields(UserSerializer)
    ensures "username" in UserFields && "username" in UserReadOnlyFields
    ensures Fields(UserPhotoValidator) == ["photo"]
  {
  }

  const TokenMaxLength: nat := 200
  const RecoveryPasswordMinLength: nat := 6

  /** `RecoveryValidator`: `token` (at most 200) and `password` (at least 6). */
  predicate RecoveryValid(token: Option<string>, password: Option<string>)
  {
    CharFieldValid(token, true, 0, Some(TokenMaxLength)) &&
    CharFieldValid(password, true, RecoveryPasswordMinLength, None)
  }

  /** `ChangeEmailValidator`: `email_token` (at most 200). */
  predicate ChangeEmailValid(emailToken: Option<string>)
  {
    CharFieldValid(emailToken, true, 0, Some(TokenMaxLength))
  }

  /** `CancelAccountValidator`: `cancel_token` (at most 200). */
  predicate CancelAccountValid(cancelToken: Option<string>)
  {
    CharFieldValid(cancelToken, true, 0, Some(TokenMaxLength))
  }

  /** What each validator accepts, field by field: every field is required,
      non-blank and within its bound. */
  lemma ValidatorsAccept(token: Option<string>, password: Option<string>, emailToken: Option<string>, cancelToken: Option<string>)
    ensures RecoveryValid(token, password) <==>
            token.Some? && 0 < |token.value| <= 200 && password.Some? && |password.value| >= 6
    ensures ChangeEmailValid(emailToken) <==> emailToken.Some? && 0 < |emailToken.value| <= 200
    ensures CancelAccountValid(cancelToken) <==> cancelToken.Some? && 0 < |cancelToken.value| <= 200
  {
  }
}
