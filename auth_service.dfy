/**
 * The form validators and login of src/services/auth.service.ts, whose
 * validator text is the same as that of src/controllers/AuthController.ts.
 */
module AuthService {
  import opened Wrappers
  import FormValidation
  import opened AuthProvider

  /**
   * `validateLoginFields(data)`: the early-return chain, which reports the
   * first failing login check; None is `null`.
   */
  function ValidateLoginFields(data: FormValidation.LoginData): (error: Option<string>)
    ensures error == FormValidation.FirstFailure(FormValidation.LoginChecks(data))
  {
    FormValidation.LoginOutcome(data);
    if FormValidation.IsBlank(data.email) then Some(FormValidation.EMAIL_REQUIRED)
    else if FormValidation.IsBlank(data.password) then Some(FormValidation.PASSWORD_REQUIRED)
    else if !IsValidEmail(data.email) then Some(FormValidation.INVALID_EMAIL)
    else None
  }

  /**
   * `validateRegisterFields(data)`: the eight-step early-return chain, which
   * reports the first failing registration check.
   */
  function ValidateRegisterFields(data: FormValidation.RegisterData): (error: Option<string>)
    ensures error == FormValidation.FirstFailure(FormValidation.RegisterChecks(data))
  {
    FormValidation.RegisterOutcome(data);
    if FormValidation.IsBlank(data.firstName) then Some(FormValidation.FIRST_NAME_REQUIRED)
    else if FormValidation.IsBlank(data.lastName) then Some(FormValidation.LAST_NAME_REQUIRED)
    else if FormValidation.IsBlank(data.email) then Some(FormValidation.EMAIL_REQUIRED)
    else if FormValidation.IsBlank(data.password) then Some(FormValidation.PASSWORD_REQUIRED)
    else if FormValidation.IsBlank(data.confirmPassword) then Some(FormValidation.CONFIRM_REQUIRED)
    else if !IsValidEmail(data.email) then Some(FormValidation.INVALID_EMAIL)
    else if data.password != data.confirmPassword then Some(FormValidation.PASSWORDS_DIFFER)
    else if |data.password| < FormValidation.MIN_PASSWORD_LENGTH then Some(FormValidation.PASSWORD_TOO_SHORT)
    else None
  }

  /** `isValidEmail(email)`: the regular-expression test. */
  function IsValidEmail(email: string): (valid: bool)
    ensures valid <==> FormValidation.MatchesEmailPattern(email)
  {
    FormValidation.ValidEmailIffMatchesPattern(email);
    FormValidation.IsValidEmail(email)
  }

  /**
   * `login(data)`: the development credentials resolve `{ data: true, error: null }`
   * without contacting the provider; any other credentials are forwarded, a
   * rejection of the provider's promise is passed on, and the provider's
   * `{ data, error }` is resolved as it is, error included. `response` is what
   * the provider's promise resolved (`Success`) or rejected (`Failure`) with.
   */
  function Login(data: FormValidation.LoginData, response: Result<SignInResponse>): (call: LoginCall)
    ensures call.providerRequest.None? <==> IsDevCredentials(data)
    ensures call.providerRequest.Some? ==> call.providerRequest.value == data
    ensures call.outcome.Rejected? <==> !IsDevCredentials(data) && response.Failure?
    ensures IsDevCredentials(data) ==> call.outcome == Resolved(DEV_REPLY)
    ensures !IsDevCredentials(data) ==>
              (response.Failure? ==> call.outcome == Rejected(response.error)) &&
              (response.Success? ==>
                 call.outcome == Resolved(LoginReply(Provider(response.value.data), response.value.error)))
  {
    if data.email == DEV_EMAIL && data.password == DEV_PASSWORD then
      LoginCall(None, Resolved(DEV_REPLY))
    else if response.Failure? then
      LoginCall(Some(data), Rejected(response.error))
    else
      LoginCall(Some(data), Resolved(LoginReply(Provider(response.value.data), response.value.error)))
  }

  /** The development bypass matches exactly: a padded address is forwarded to the provider. */
  lemma PaddedDevEmailIsForwarded(response: Result<SignInResponse>)
    ensures Login(FormValidation.LoginData(" " + DEV_EMAIL, DEV_PASSWORD), response)
              .providerRequest.Some?
  {
  }
}
