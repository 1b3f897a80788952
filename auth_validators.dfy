/** `BaseRegisterValidator` and `PublicRegisterValidator`
    (`tweets2cash/auth/validators.py`): the fields a public registration
    must carry. Python's Unicode `\w` class is the abstract `isWord`. */
module AuthValidators {
  import opened Wrappers
  import opened RestFramework

  const FullNameMaxLength: nat := 256
  const EmailMaxLength: nat := 255
  const UsernameMaxLength: nat := 150
  const PasswordMinLength: nat := 4
  const InvalidUsernameMessage: string :=
    "Required. 150 characters or fewer. Letters, numbers and /./-/_ characters'"

  /** The submitted fields; an absent field is `None`. */
  datatype RegisterForm = RegisterForm(fullName: Option<string>, email: Option<string>,
                                       username: Option<string>, password: Option<string>)

  /** The validated data. */
  datatype RegisterData = RegisterData(fullName: Option<string>, email: string, username: string, password: string)

  /** A character of the class `[\w.-]`. */
  predicate UsernameChar(c: char, isWord: char -> bool)
  {
    isWord(c) || c == '.' || c == '-'
  }

  predicate AllUsernameChars(s: string, isWord: char -> bool)
  {
    forall i :: 0 <= i < |s| ==> UsernameChar(s[i], isWord)
  }

  /** `re.search('^[\w.-]+$', s)`: one or more class characters up to the
      end, where Python's `$` also matches just before a final newline. */
  predicate UsernamePatternMatches(s: string, isWord: char -> bool)
  {
    || (|s| > 0 && AllUsernameChars(s, isWord))
    || (|s| > 1 && s[|s| - 1] == '\n' && AllUsernameChars(s[..|s| - 1], isWord))
  }

  /** `validate_username`: the value comes back unchanged when it matches,
      and the fixed message is reported when it does not. */
  function ValidateUsername(value: string, isWord: char -> bool): (r: Result<string, string>)
    ensures r.Ok? <==> UsernamePatternMatches(value, isWord)
    ensures r.Ok? ==> r.value == value
    ensures r.Err? ==> r.error == InvalidUsernameMessage
  {
    if UsernamePatternMatches(value, isWord) then Ok(value) else Err(InvalidUsernameMessage)
  }

  /** For a value without a final newline: accepted exactly when it is
      non-empty and made of word characters, '.' and '-'. */
  lemma UsernameAcceptance(value: string, isWord: char -> bool)
    requires value == [] || value[|value| - 1] != '\n'
    ensures ValidateUsername(value, isWord).Ok? <==>
              |value| > 0 && forall i :: 0 <= i < |value| ==> UsernameChar(value[i], isWord)
  {
  }

  /** The pattern on its own lets one final newline through. */
  lemma {:induction false} PatternAllowsFinalNewline(value: string, isWord: char -> bool)
    requires |value| > 0 && AllUsernameChars(value, isWord) && !isWord('\n')
    ensures ValidateUsername(value + "\n", isWord) == Ok(value + "\n")
    ensures !AllUsernameChars(value + "\n", isWord)
  {
    var s := value + "\n";
    assert s[..|s| - 1] == value;
    assert s[|s| - 1] == '\n';
  }

  predicate FullNameValid(form: RegisterForm)
  {
    CharFieldValid(form.fullName, false, 0, Some(FullNameMaxLength))
  }

  predicate EmailValid(form: RegisterForm, wellFormed: string -> bool)
  {
    CharFieldValid(form.email, true, 0, Some(EmailMaxLength)) && ValidEmail(form.email.value, wellFormed)
  }

  /** The field checks, then `validate_username`. */
  predicate UsernameValid(form: RegisterForm, isWord: char -> bool)
  {
    CharFieldValid(form.username, true, 0, Some(UsernameMaxLength)) &&
    ValidateUsername(form.username.value, isWord).Ok?
  }

  predicate PasswordValid(form: RegisterForm)
  {
    CharFieldValid(form.password, true, PasswordMinLength, None)
  }

  /** The names of the fields that fail, in declaration order. */
  function FieldErrors(form: RegisterForm, isWord: char -> bool, wellFormed: string -> bool): (errors: seq<string>)
    ensures "full_name" in errors <==> !FullNameValid(form)
    ensures "email" in errors <==> !EmailValid(form, wellFormed)
    ensures "username" in errors <==> !UsernameValid(form, isWord)
    ensures "password" in errors <==> !PasswordValid(form)
    ensures forall e :: e in errors ==> e in ["full_name", "email", "username", "password"]
  {
    (if FullNameValid(form) then [] else ["full_name"]) +
    (if EmailValid(form, wellFormed) then [] else ["email"]) +
    (if UsernameValid(form, isWord) then [] else ["username"]) +
    (if PasswordValid(form) then [] else ["password"])
  }

  /** `is_valid()` followed by `.data` or `.errors`. `PublicRegisterValidator`
      adds nothing to its base, so this is the validator of both. */
  function Validate(form: RegisterForm, isWord: char -> bool, wellFormed: string -> bool): (r: Result<RegisterData, seq<string>>)
    ensures r.Ok? <==> FullNameValid(form) && EmailValid(form, wellFormed) && UsernameValid(form, isWord) && PasswordValid(form)
    ensures r.Err? ==> r.error != [] && r.error == FieldErrors(form, isWord, wellFormed)
    ensures r.Ok? ==>
              && r.value == RegisterData(form.fullName, form.email.value, form.username.value, form.password.value)
              && (r.value.fullName.Some? ==> 0 < |r.value.fullName.value| <= FullNameMaxLength)
              && 0 < |r.value.email| <= EmailMaxLength && '@' in r.value.email
              && 0 < |r.value.username| <= UsernameMaxLength
              && PasswordMinLength <= |r.value.password|
  {
    var errors := FieldErrors(form, isWord, wellFormed);
    if errors == [] then
      Ok(RegisterData(form.fullName, form.email.value, form.username.value, form.password.value))
    else
      Err(errors)
  }

  /** A username with a space in it is refused. */
  lemma {:induction false} SpacedUsernameRejected(isWord: char -> bool)
    requires !isWord(' ')
    ensures ValidateUsername("User Examp:/e", isWord).Err?
  {
    var s := "User Examp:/e";
    assert s[4] == ' ';
    assert s[..|s| - 1][4] == ' ';
  }

  /** A username over 150 characters is refused, whatever it is made of. */
  lemma LongUsernameRejected(form: RegisterForm, isWord: char -> bool, wellFormed: string -> bool)
    requires form.username.Some? && |form.username.value| > UsernameMaxLength
    ensures Validate(form, isWord, wellFormed).Err?
    ensures "username" in Validate(form, isWord, wellFormed).error
  {
  }
}
