/** The express-validator chains of `validateRegister`. No chain calls
    `.bail()`, so every validator of a chain runs on the (sanitised) value
    and each failing one adds its message; a chain's errors are listed in
    validator order and the chains in field order. Absent body fields read
    as `""`. `isEmail` is a library predicate and stays a parameter. */
module ValidateRegister {
  import opened Text

  datatype FieldError = FieldError(field: string, message: string)

  datatype RegisterBody = RegisterBody(username: string, email: string, password: string, confirmPassword: string)

  const UsernameEmpty := "Username cannot be empty."
  const UsernameLength := "Username must be between 3 & 20 characters"
  const UsernameCharset := "Username can only contain letters, numbers, and underscores"
  const UsernameCase := "Username changed to lowercase. Please retype your passwords"
  const EmailEmpty := "Email cannot be empty"
  const EmailInvalid := "Must be a valid email address"
  const EmailLength := "Email must be between 6 & 264 characters"
  const PasswordEmpty := "Password cannot be empty"
  const PasswordLength := "Password must be at least 8 characters"
  const ConfirmEmpty := "Confirm password cannot be empty"
  const ConfirmMismatch := "Confirm password does not match password"

  /** `/^[a-zA-Z0-9_]+$/`. */
  predicate MatchesUsernamePattern(v: string) {
    |v| > 0 && forall i :: 0 <= i < |v| ==> IsWordChar(v[i])
  }

  /** validator's `isLowercase`: the value equals its lower-cased form. */
  predicate IsLowercase(v: string) {
    v == LowerAscii(v)
  }

  /** The characters an accepted username is made of: `[a-z0-9_]`. */
  predicate IsUsernameChar(c: char) {
    IsAsciiLower(c) || IsDigit(c) || c == '_'
  }

  function UsernameErrors(raw: string): (errs: seq<FieldError>)
    ensures forall e :: e in errs ==> e.field == "username"
    ensures errs == [] <==>
              var v := Trim(raw);
              3 <= |v| <= 20 && forall i :: 0 <= i < |v| ==> IsUsernameChar(v[i])
  {
    var v := Trim(raw);
    var empty := if |v| == 0 then [FieldError("username", UsernameEmpty)] else [];
    var length := if !(3 <= |v| <= 20) then [FieldError("username", UsernameLength)] else [];
    var charset := if !MatchesUsernamePattern(v) then [FieldError("username", UsernameCharset)] else [];
    var lower := if !IsLowercase(v) then [FieldError("username", UsernameCase)] else [];
    UsernameCharsetIsLowerWordChars(v);
    assert |empty + length + charset + lower| == |empty| + |length| + |charset| + |lower|;
    empty + length + charset + lower
  }

  /** Matching the pattern and being lower case together say that every
      character is in `[a-z0-9_]`. */
  lemma UsernameCharsetIsLowerWordChars(v: string)
    ensures MatchesUsernamePattern(v) && IsLowercase(v) <==>
              |v| > 0 && forall i :: 0 <= i < |v| ==> IsUsernameChar(v[i])
  {
    LowerAsciiFixesExactlyLowercase(v);
  }

  /** The value the chain leaves in `req.body.username`: trimmed, then
      lower-cased. */
  function SanitizedUsername(raw: string): (r: string)
    ensures |r| == |Trim(raw)|
    ensures forall i :: 0 <= i < |r| ==> !IsAsciiUpper(r[i])
    ensures r == Trim(raw) <==> forall i :: 0 <= i < |Trim(raw)| ==> !IsAsciiUpper(Trim(raw)[i])
  {
    LowerAsciiFixesExactlyLowercase(Trim(raw));
    LowerAscii(Trim(raw))
  }

  /** A username with an upper-case letter (after trimming) is refused with
      the lower-case message, even though the chain goes on to lower-case it. */
  lemma UppercaseUsernameRejected(raw: string, i: int)
    requires 0 <= i < |Trim(raw)| && IsAsciiUpper(Trim(raw)[i])
    ensures FieldError("username", UsernameCase) in UsernameErrors(raw)
  {
    LowerAsciiFixesExactlyLowercase(Trim(raw));
  }

  /** On every accepted username the final `toLowerCase()` changes nothing. */
  lemma AcceptedUsernameIsAlreadyLowercase(raw: string)
    requires UsernameErrors(raw) == []
    ensures SanitizedUsername(raw) == Trim(raw)
  {
    LowerAsciiFixesExactlyLowercase(Trim(raw));
  }

  function EmailErrors(raw: string, isEmail: string -> bool): (errs: seq<FieldError>)
    ensures forall e :: e in errs ==> e.field == "email"
    ensures errs == [] <==> var v := Trim(raw); 6 <= |v| <= 264 && isEmail(v)
  {
    var v := Trim(raw);
    (if |v| == 0 then [FieldError("email", EmailEmpty)] else [])
    + (if !isEmail(v) then [FieldError("email", EmailInvalid)] else [])
    + (if !(6 <= |v| <= 264) then [FieldError("email", EmailLength)] else [])
  }

  /** The password is not trimmed: white space counts toward its length. */
  function PasswordErrors(password: string): (errs: seq<FieldError>)
    ensures forall e :: e in errs ==> e.field == "password"
    ensures errs == [] <==> |password| >= 8
  {
    (if |password| == 0 then [FieldError("password", PasswordEmpty)] else [])
    + (if |password| < 8 then [FieldError("password", PasswordLength)] else [])
  }

  function ConfirmPasswordErrors(confirm: string, password: string): (errs: seq<FieldError>)
    ensures forall e :: e in errs ==> e.field == "confirmPassword"
    ensures errs == [] <==> confirm != "" && confirm == password
  {
    (if |confirm| == 0 then [FieldError("confirmPassword", ConfirmEmpty)] else [])
    + (if confirm != password then [FieldError("confirmPassword", ConfirmMismatch)] else [])
  }

  /** `validationResult(req)` after the four chains. */
  function RegisterErrors(body: RegisterBody, isEmail: string -> bool): (errs: seq<FieldError>)
    ensures errs == [] <==>
              && UsernameErrors(body.username) == []
              && EmailErrors(body.email, isEmail) == []
              && PasswordErrors(body.password) == []
              && ConfirmPasswordErrors(body.confirmPassword, body.password) == []
  {
    UsernameErrors(body.username) + EmailErrors(body.email, isEmail)
    + PasswordErrors(body.password) + ConfirmPasswordErrors(body.confirmPassword, body.password)
  }

  /** `postRegisterForm` goes on to create the user exactly when the rules
      left no error; spelled out field by field. */
  lemma RegistrationProceedsIff(body: RegisterBody, isEmail: string -> bool)
    ensures RegisterErrors(body, isEmail) == [] <==>
              && 3 <= |Trim(body.username)| <= 20
              && (forall i :: 0 <= i < |Trim(body.username)| ==> IsUsernameChar(Trim(body.username)[i]))
              && 6 <= |Trim(body.email)| <= 264 && isEmail(Trim(body.email))
              && |body.password| >= 8
              && body.confirmPassword == body.password
  {
  }

  /** Eight spaces make an acceptable password. */
  lemma PasswordIsNotTrimmed()
    ensures PasswordErrors("        ") == []
  {
  }
}
