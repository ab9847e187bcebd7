/**
 * The login request body (src/schemas/auth.py): an optional email, an
 * optional username and a mandatory password, of which at least one
 * identifier must be given. Pydantic first validates every field: a
 * present email must be a well-formed address (`EmailStr`), which it
 * normalises, and the password must be present. Only a body whose fields
 * all pass is built, and then the model validator `validate_identifier`
 * runs on it.
 *
 * The address syntax check is a parameter, `checkEmail`: it gives the
 * normalised address for a well-formed one and None for a malformed one.
 */
module AuthSchema {
  import opened Wrappers

  datatype LoginRequest = LoginRequest(email: Option<string>, username: Option<string>, password: string)

  /** A 422 from field validation, naming the refused fields in declaration order, or the validator's error. */
  datatype ValidationError = FieldErrors(fields: seq<string>) | ValueError(message: string)

  const MissingIdentifierMessage := "Debe proporcionar email o username"

  /** `validate_identifier`: rejects a request with neither identifier, otherwise returns it unchanged. */
  function ValidateIdentifier(req: LoginRequest): (r: Result<LoginRequest, ValidationError>)
    ensures r.Err? <==> !Truthy(req.email) && !Truthy(req.username)
    ensures r.Err? ==> r.error == ValueError(MissingIdentifierMessage)
    ensures r.Ok? ==> r.value == req
  {
    if !Truthy(req.email) && !Truthy(req.username) then Err(ValueError(MissingIdentifierMessage))
    else Ok(req)
  }

  /** A present email that the address check refuses. */
  predicate EmailRefused(checkEmail: string -> Option<string>, email: Option<string>) {
    email.Some? && checkEmail(email.value).None?
  }

  /**
   * Building a LoginRequest from the body's fields: the email is checked
   * and normalised and the password must be present, every field error
   * being reported together; then the validator runs on the built body.
   */
  function ParseLoginRequest(checkEmail: string -> Option<string>, email: Option<string>, username: Option<string>, password: Option<string>)
    : (r: Result<LoginRequest, ValidationError>)
    ensures (r.Err? && r.error.FieldErrors?) <==> EmailRefused(checkEmail, email) || password.None?
    ensures r.Err? && r.error.FieldErrors? ==>
      && ("email" in r.error.fields <==> EmailRefused(checkEmail, email))
      && ("password" in r.error.fields <==> password.None?)
    ensures !EmailRefused(checkEmail, email) && password.Some? ==>
      var built := LoginRequest(if email.Some? then checkEmail(email.value) else None, username, password.value);
      r == ValidateIdentifier(built)
    ensures r.Ok? ==> password.Some? && r.value.password == password.value && r.value.username == username
    ensures r.Ok? && email.Some? ==> r.value.email == checkEmail(email.value)
    ensures r.Ok? && email.None? ==> r.value.email.None?
  {
    var emailErrors := if EmailRefused(checkEmail, email) then ["email"] else [];
    var passwordErrors := if password.None? then ["password"] else [];
    if emailErrors + passwordErrors != [] then
      assert emailErrors != [] ==> (emailErrors + passwordErrors)[0] == "email";
      assert passwordErrors != [] ==> (emailErrors + passwordErrors)[|emailErrors|] == "password";
      Err(FieldErrors(emailErrors + passwordErrors))
    else
      var normalised := if email.Some? then checkEmail(email.value) else None;
      ValidateIdentifier(LoginRequest(normalised, username, password.value))
  }

  /** The three accepted shapes: email only, username only, and both, with the email normalised. */
  lemma AcceptedShapes(checkEmail: string -> Option<string>, e: string, u: string, p: string)
    requires checkEmail(e).Some? && checkEmail(e).value != ""
    requires u != ""
    ensures ParseLoginRequest(checkEmail, Some(e), None, Some(p)) == Ok(LoginRequest(checkEmail(e), None, p))
    ensures ParseLoginRequest(checkEmail, None, Some(u), Some(p)) == Ok(LoginRequest(None, Some(u), p))
    ensures ParseLoginRequest(checkEmail, Some(e), Some(u), Some(p)) == Ok(LoginRequest(checkEmail(e), Some(u), p))
  {
  }

  /** A malformed email is a 422 field error whatever the username, and the validator never runs. */
  lemma MalformedEmailRefused(checkEmail: string -> Option<string>, e: string, u: Option<string>, p: string)
    requires checkEmail(e).None?
    ensures ParseLoginRequest(checkEmail, Some(e), u, Some(p)) == Err(FieldErrors(["email"]))
    ensures ParseLoginRequest(checkEmail, Some(e), u, None) == Err(FieldErrors(["email", "password"]))
  {
    assert ["email"] + [] == ["email"];
    assert ["email"] + ["password"] == ["email", "password"];
  }

  /**
   * No identifier gets through empty: the empty text is not an address, so
   * an empty email is a field error, and an empty or null username with no
   * email is refused by the validator.
   */
  lemma EmptyIdentifiersRejected(checkEmail: string -> Option<string>, p: string)
    requires checkEmail("").None?
    ensures ParseLoginRequest(checkEmail, Some(""), Some(""), Some(p)) == Err(FieldErrors(["email"]))
    ensures ParseLoginRequest(checkEmail, Some(""), None, Some(p)) == Err(FieldErrors(["email"]))
    ensures ParseLoginRequest(checkEmail, None, Some(""), Some(p)) == Err(ValueError(MissingIdentifierMessage))
    ensures ParseLoginRequest(checkEmail, None, None, Some(p)) == Err(ValueError(MissingIdentifierMessage))
  {
    assert ["email"] + [] == ["email"];
  }
}
