/**
 * The authentication provider's sign-in exchange, as seen by the two login
 * operations: the request they send and the reply shapes they produce.
 */
module AuthProvider {
  import opened Wrappers
  import FormValidation

  /** What a successful sign-in reports: the user id and the session token. */
  datatype AuthData = AuthData(user: Option<string>, session: Option<string>)

  /** `{ data, error }` as `signInWithPassword` resolves. */
  datatype SignInResponse = SignInResponse(data: AuthData, error: Option<string>)

  /** The `data` of a login reply: `true` for the development bypass, else the provider's data. */
  datatype LoginPayload = DevBypass | Provider(auth: AuthData)

  /** `{ data, error }` as a login operation resolves. */
  datatype LoginReply = LoginReply(data: LoginPayload, error: Option<string>)

  /** A login resolves with a reply or rejects with an error. */
  datatype LoginOutcome = Resolved(reply: LoginReply) | Rejected(error: string)

  /**
   * One login: the credentials forwarded to the provider (None when the
   * provider is not contacted) and the outcome.
   */
  datatype LoginCall = LoginCall(providerRequest: Option<FormValidation.LoginData>, outcome: LoginOutcome)

  /** The development credentials that bypass the authentication provider. */
  const DEV_EMAIL := "admin@heronfit.com"
  const DEV_PASSWORD := "admin123"

  /** Exact, untrimmed comparison with the development credentials. */
  predicate IsDevCredentials(data: FormValidation.LoginData) {
    data.email == DEV_EMAIL && data.password == DEV_PASSWORD
  }

  /** `{ data: true, error: null }`. */
  const DEV_REPLY := LoginReply(DevBypass, None)
}
