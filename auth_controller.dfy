/**
 * The form validators and login of src/controllers/AuthController.ts.
 */
module AuthController {
  import opened Wrappers
  import FormValidation
  import opened AuthProvider

  /**
   * `validateLoginFields(data)`: the early-return chain, which reports the
   * first failing login check; None is `null`.
   */
  function ValidateLoginFields(data: FormValidation.LoginData): (error: Option<string>)
    ensures error == FormValidation.FirstFailure(FormValidation.LoginChecks(data))
  {
    FormValidation.LoginOutcome(data);
    if FormValidation.IsBlank(data.email) then Some(FormValidation.EMAIL_REQUIRED)
    else if FormValidation.IsBlank(data.password) then Some(FormValidation.PASSWORD_REQUIRED)
    else if !IsValidEmail(data.email) then Some(FormValidation.INVALID_EMAIL)
    else None
  }

  /**
   * `validateRegisterFields(data)`: the eight-step early-return chain, which
   * reports the first failing registration check.
   */
  function ValidateRegisterFields(data: FormValidation.RegisterData): (error: Option<string>)
    ensures error == FormValidation.FirstFailure(FormValidation.RegisterChecks(data))
  {
    FormValidation.RegisterOutcome(data);
    if FormValidation.IsBlank(data.firstName) then Some(FormValidation.FIRST_NAME_REQUIRED)
    else if FormValidation.IsBlank(data.lastName) then Some(FormValidation.LAST_NAME_REQUIRED)
    else if FormValidation.IsBlank(data.email) then Some(FormValidation.EMAIL_REQUIRED)
    else if FormValidation.IsBlank(data.password) then Some(FormValidation.PASSWORD_REQUIRED)
    else if FormValidation.IsBlank(data.confirmPassword) then Some(FormValidation.CONFIRM_REQUIRED)
    else if !IsValidEmail(data.email) then Some(FormValidation.INVALID_EMAIL)
    else if data.password != data.confirmPassword then Some(FormValidation.PASSWORDS_DIFFER)
    else if |data.password| < FormValidation.MIN_PASSWORD_LENGTH then Some(FormValidation.PASSWORD_TOO_SHORT)
    else None
  }

  /** `isValidEmail(email)`: the regular-expression test. */
  function IsValidEmail(email: string): (valid: bool)
    ensures valid <==> FormValidation.MatchesEmailPattern(email)
  {
    FormValidation.ValidEmailIffMatchesPattern(email);
    FormValidation.IsValidEmail(email)
  }

  /**
   * `login(data)`: the development credentials resolve `{ data: true, error: null }`
   * without contacting the provider; any other credentials are forwarded, a
   * rejected call or a provider error is thrown, and otherwise the provider's
   * data is returned with a null error. `response` is what the provider's
   * promise resolved (`Success`) or rejected (`Failure`) with.
   */
  function Login(data: FormValidation.LoginData, response: Result<SignInResponse>): (call: LoginCall)
    ensures call.providerRequest.None? <==> IsDevCredentials(data)
    ensures call.providerRequest.Some? ==> call.providerRequest.value == data
    ensures IsDevCredentials(data) ==> call.outcome == Resolved(DEV_REPLY)
    ensures !IsDevCredentials(data) ==>
              (call.outcome.Rejected? <==> response.Failure? || response.value.error.Some?) &&
              (response.Failure? ==> call.outcome == Rejected(response.error)) &&
              (response.Success? && response.value.error.Some? ==> call.outcome == Rejected(response.value.error.value)) &&
              (call.outcome.Resolved? ==> call.outcome.reply == LoginReply(Provider(response.value.data), None))
  {
    if data.email == DEV_EMAIL && data.password == DEV_PASSWORD then
      LoginCall(None, Resolved(DEV_REPLY))
    else if response.Failure? then
      LoginCall(Some(data), Rejected(response.error))
    else if response.value.error.Some? then
      LoginCall(Some(data), Rejected(response.value.error.value))
    else
      LoginCall(Some(data), Resolved(LoginReply(Provider(response.value.data), None)))
  }

  /** A login that resolves never carries an error. */
  lemma ResolvedLoginHasNoError(data: FormValidation.LoginData, response: Result<SignInResponse>)
    ensures Login(data, response).outcome.Resolved? ==> Login(data, response).outcome.reply.error.None?
  {
  }
}
