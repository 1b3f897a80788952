/** `AuthViewSet` (`tweets2cash/auth/api.py`): login dispatch to the
    registered auth plugins and public registration. `public_register`,
    `make_auth_response_data` and the plugin table live in code that is
    not part of this model and come in as parameters. */
module AuthApi {
  import opened Wrappers
  import opened RestFramework
  import opened AuthValidators

  const PublicRegisterDisabled: string := "Public register is disabled."
  const InvalidRegisterType: string := "invalid register type"
  const InvalidLoginType: string := "invalid login type"

  /** The two successful responses the viewset returns. */
  datatype Reply<D> = OkResponse(data: D) | CreatedResponse(data: D)

  /** `_parse_data`: the validator's data, or its errors carried by a
      `RequestValidationError`. */
  function ParseData<F, D>(data: F, validate: F -> Result<D, seq<string>>): (r: Result<D, ApiError>)
    ensures r.Ok? <==> validate(data).Ok?
    ensures r.Ok? ==> r.value == validate(data).value
    ensures r.Err? ==> r.error == RequestValidationError(validate(data).error)
  {
    match validate(data)
    case Ok(d) => Ok(d)
    case Err(errors) => Err(RequestValidationError(errors))
  }

  /** `parse_public_register_data`. */
  function ParsePublicRegisterData(form: RegisterForm, isWord: char -> bool, wellFormed: string -> bool): (r: Result<RegisterData, ApiError>)
    ensures r.Ok? <==> Validate(form, isWord, wellFormed).Ok?
    ensures r.Err? ==> r.error == RequestValidationError(FieldErrors(form, isWord, wellFormed))
  {
    ParseData(form, (f: RegisterForm) => Validate(f, isWord, wellFormed))
  }

  /** `_public_register`: refused while registration is disabled, before
      the form is looked at; invalid data is a validation error; an
      integrity error of `register` becomes a bad request; a new user is
      answered with `respond(user)` and status 201. */
  function PublicRegister<U, D>(enabled: bool, form: RegisterForm, isWord: char -> bool, wellFormed: string -> bool,
                                register: RegisterData -> Result<U, string>, respond: U -> D): (r: Result<Reply<D>, ApiError>)
    ensures !enabled ==> r == Err(BadRequest(PublicRegisterDisabled))
    ensures enabled && Validate(form, isWord, wellFormed).Err? ==>
              r == Err(RequestValidationError(Validate(form, isWord, wellFormed).error))
    ensures enabled && Validate(form, isWord, wellFormed).Ok? ==>
              match register(Validate(form, isWord, wellFormed).value)
              case Err(detail) => r == Err(BadRequest(detail))
              case Ok(user) => r == Ok(CreatedResponse(respond(user)))
    ensures r.Ok? ==> enabled && r.value.CreatedResponse? && Validate(form, isWord, wellFormed).Ok?
  {
    if !enabled then Err(BadRequest(PublicRegisterDisabled))
    else
      match ParsePublicRegisterData(form, isWord, wellFormed)
      case Err(e) => Err(e)
      case Ok(data) =>
        match register(data)
        case Err(detail) => Err(BadRequest(detail))
        case Ok(user) => Ok(CreatedResponse(respond(user)))
  }

  /** `register`: only the "public" type is served. */
  function Register<U, D>(registerType: Option<string>, enabled: bool, form: RegisterForm, isWord: char -> bool,
                          wellFormed: string -> bool, register: RegisterData -> Result<U, string>, respond: U -> D): (r: Result<Reply<D>, ApiError>)
    ensures registerType != Some("public") ==> r == Err(BadRequest(InvalidRegisterType))
    ensures registerType == Some("public") ==> r == PublicRegister(enabled, form, isWord, wellFormed, register, respond)
    ensures r.Ok? ==> registerType == Some("public") && enabled
  {
    if registerType == Some("public") then PublicRegister(enabled, form, isWord, wellFormed, register, respond)
    else Err(BadRequest(InvalidRegisterType))
  }

  /** A disabled registration answers the same whatever the form holds. */
  lemma DisabledRegisterIgnoresForm<U, D>(form1: RegisterForm, form2: RegisterForm, isWord: char -> bool, wellFormed: string -> bool,
                                          register: RegisterData -> Result<U, string>, respond: U -> D)
    ensures Register(Some("public"), false, form1, isWord, wellFormed, register, respond) ==
            Register(Some("public"), false, form2, isWord, wellFormed, register, respond)
    ensures Register(Some("public"), false, form1, isWord, wellFormed, register, respond) ==
            Err(BadRequest(PublicRegisterDisabled))
  {
  }

  /** `create` (login): the plugin registered for the request's `type`
      answers with status 200; an unregistered or missing type is refused. */
  function Login<R, D>(loginType: Option<string>, plugins: map<string, R -> D>, request: R): (r: Result<Reply<D>, ApiError>)
    ensures r.Ok? <==> loginType.Some? && loginType.value in plugins
    ensures r.Ok? ==> r == Ok(OkResponse(plugins[loginType.value](request)))
    ensures r.Err? ==> r.error == BadRequest(InvalidLoginType)
  {
    if loginType.Some? && loginType.value in plugins then Ok(OkResponse(plugins[loginType.value](request)))
    else Err(BadRequest(InvalidLoginType))
  }

  const AllowAnyActions: seq<string> := ["create", "register"]

  class AuthViewSet {
    var permissionClasses: seq<PermissionClass>

    constructor ()
      ensures permissionClasses == [AllowAny]
    {
      permissionClasses := [AllowAny];
    }

    /** `get_permissions`: login and registration are reassigned to
        `AllowAny`; the current classes are returned. */
    method GetPermissions(action: string) returns (ps: seq<PermissionClass>)
      modifies this
      ensures permissionClasses == (if action in AllowAnyActions then [AllowAny] else old(permissionClasses))
      ensures ps == permissionClasses
    {
      if action in AllowAnyActions {
        permissionClasses := [AllowAny];
      }
      ps := permissionClasses;
    }
  }

  /** On a new viewset every action, login and registration included, is
      open to anyone. */
  method PermissionsFor(action: string) returns (ps: seq<PermissionClass>)
    ensures ps == [AllowAny]
  {
    var view := new AuthViewSet();
    ps := view.GetPermissions(action);
  }
}
