/**
  The stateless authorization flow of internal/authflow and the sealed branch of
  internal/auth's middleware, as the steps of one state machine. No session is stored: what a
  client presents is any text it likes, and what the server knows of it is what it once sealed.

  Google, the clock, random draws and the configuration of a restarted process are the
  environment's: an action carries what they supplied.
 */
module AuthFlow {
  import opened Wrappers
  import opened AuthSealing
  import Base64

  /** Library functions over text, and the S256 hash of section 4.6 of RFC 7636. */
  datatype Text = Text(
    fields: string -> seq<string>, normalise: string -> string, isBearer: string -> bool, s256: string -> string)

  const STATE_PREFIX := "cdbstate1:"
  const CHALLENGE_METHOD := "S256"
  const CODE_LIFETIME: int := 300
  const ACCESS_LIFETIME: int := 3600
  const GRANT_AUTHORIZATION_CODE := "authorization_code"
  const GRANT_REFRESH_TOKEN := "refresh_token"

  /** `allowed` holds normalised addresses, none of them blank. */
  datatype Config = Config(redirectURIs: seq<string>, allowed: set<string>)

  datatype CallbackState = CallbackState(
    redirectURI: string, clientState: string, challenge: string, challengeMethod: string, googleVerifier: string)

  datatype Identity = Identity(subject: string, email: string, verified: bool)

  datatype FlowError =
    | RedirectUnregistered
    | ChallengeInvalid
    | AuthorizationResponse
    | ExchangeRefused
    | IdentityUnusable
    | IdentityRefused
    | RequestMalformed
    | GrantUnsupported
    | GrantUnusable
    | RenewalUnavailable

  datatype TokenRequest = TokenRequest(
    grant: string, code: string, verifier: string, redirectURI: string, renewal: string)

  /** Google's answer to an authorization code: a refresh token, and the grant it belongs to. */
  datatype Exchange = NoTokens | Tokens(refreshToken: string, grant: nat)

  /** Google's answer to a refresh token; a renewal may carry a new one, or none. */
  datatype Renewal = RenewalRefused | RenewalFailed | RenewedTokens(refreshToken: string)

  // ----- the decisions -----

  predicate Accepts(configured: seq<string>, candidate: string) {
    candidate in configured
  }

  predicate Allows(t: Text, config: Config, email: string) {
    t.normalise(email) in config.allowed
  }

  predicate VerifierMatches(t: Text, verifier: string, challenge: string) {
    t.s256(verifier) == challenge
  }

  /** The bytes a state's letters spell, if it has the prefix and they spell any. */
  function StateBody(value: string): Option<Bytes> {
    if STATE_PREFIX <= value then Base64.Decode(value[|STATE_PREFIX|..]) else None
  }

  function UnsealState(states: map<Bytes, CallbackState>, value: string): Option<CallbackState> {
    match StateBody(value)
    case Some(body) => if body in states then Some(states[body]) else None
    case None => None
  }

  predicate ValidState(config: Config, state: CallbackState) {
    && state.googleVerifier != [] && state.challenge != [] && state.challengeMethod == CHALLENGE_METHOD
    && Accepts(config.redirectURIs, state.redirectURI)
  }

  function Start(config: Config, request: CallbackState): Result<CallbackState, FlowError> {
    if !Accepts(config.redirectURIs, request.redirectURI) then Err(RedirectUnregistered)
    else if request.challenge == [] || request.challengeMethod != CHALLENGE_METHOD then Err(ChallengeInvalid)
    else Ok(request)
  }

  /** The callback: the authorization code to seal, once Google has answered for the person. */
  function Finish(
    t: Text, config: Config, now: int, unsealed: Option<CallbackState>, googleCode: string, google: Exchange,
    identity: Option<Identity>) : Result<Payload, FlowError>
  {
    if unsealed.None? || !ValidState(config, unsealed.value) || googleCode == [] then Err(AuthorizationResponse)
    else if google.NoTokens? || google.refreshToken == [] then Err(ExchangeRefused)
    else if identity.None? || identity.value.subject == [] then Err(IdentityUnusable)
    else if !identity.value.verified || !Allows(t, config, identity.value.email) then Err(IdentityRefused)
    else Ok(CodeCredential(
      google.refreshToken, identity.value.subject, identity.value.email, identity.value.verified,
      unsealed.value.challenge, unsealed.value.challengeMethod, now + CODE_LIFETIME))
  }

  datatype Issued = Issued(access: Payload, refresh: Option<Payload>)

  /** The authorization-code grant, section 4.1.3 of RFC 6749. */
  function IssueFromCode(t: Text, config: Config, now: int, vault: Vault, request: TokenRequest)
    : Result<Issued, FlowError>
    requires WellFiled(vault)
  {
    if request.code == [] || request.verifier == [] || request.redirectURI == [] then Err(RequestMalformed)
    else if !Accepts(config.redirectURIs, request.redirectURI) then Err(GrantUnusable)
    else
      match Unseal(vault, AuthorizationCode, request.code)
      case Err(_) => Err(GrantUnusable)
      case Ok(code) =>
        if code.expiresAt <= now then Err(GrantUnusable)
        else if code.challengeMethod != CHALLENGE_METHOD || !VerifierMatches(t, request.verifier, code.challenge) then
          Err(GrantUnusable)
        else if !code.verified || !Allows(t, config, code.email) then Err(IdentityRefused)
        else Ok(Issued(
          AccessCredential(code.subject, code.email, code.verified, now + ACCESS_LIFETIME),
          Some(RefreshCredential(code.upstreamSecret))))
  }

  /** What a renewal would send to Google, if it sends anything. */
  function Upstream(vault: Vault, request: TokenRequest): Option<string>
    requires WellFiled(vault)
  {
    if request.renewal == [] then None
    else
      match Unseal(vault, Refresh, request.renewal)
      case Err(_) => None
      case Ok(r) => if r.upstreamSecret == [] || IsSealedCredential(r.upstreamSecret) then None else Some(r.upstreamSecret)
  }

  /** The refresh grant, section 6 of RFC 6749: the same credential back, unless Google rotated its own. */
  function IssueFromRenewal(
    t: Text, config: Config, now: int, vault: Vault, request: TokenRequest, google: Renewal, identity: Option<Identity>)
    : Result<Issued, FlowError>
    requires WellFiled(vault)
  {
    if request.renewal == [] then Err(RequestMalformed)
    else
      match Upstream(vault, request)
      case None => Err(GrantUnusable)
      case Some(upstream) =>
        if google.RenewalRefused? then Err(GrantUnusable)
        else if google.RenewalFailed? then Err(RenewalUnavailable)
        else if identity.None? || identity.value.subject == [] then Err(IdentityUnusable)
        else if !identity.value.verified || !Allows(t, config, identity.value.email) then Err(IdentityRefused)
        else Ok(Issued(
          AccessCredential(identity.value.subject, identity.value.email, identity.value.verified, now + ACCESS_LIFETIME),
          if google.refreshToken != [] && google.refreshToken != upstream then Some(RefreshCredential(google.refreshToken))
          else None))
  }

  function Issue(
    t: Text, config: Config, now: int, vault: Vault, request: TokenRequest, google: Renewal, identity: Option<Identity>)
    : Result<Issued, FlowError>
    requires WellFiled(vault)
  {
    if request.grant == GRANT_AUTHORIZATION_CODE then IssueFromCode(t, config, now, vault, request)
    else if request.grant == GRANT_REFRESH_TOKEN then IssueFromRenewal(t, config, now, vault, request, google, identity)
    else Err(GrantUnsupported)
  }

  // ----- the middleware -----

  datatype Failure =
    | AbsentHeader
    | RepeatedHeader
    | MalformedHeader
    | SealedCredentialCorrupt
    | SealedCredentialWrongPurpose
    | SealedCredentialExpired
    | NoEmailInToken
    | NotAllowlisted
    | EmailUnverified

  /** `Elsewhere` is a token with no marker of this server's, left to the gateway or to Google. */
  datatype Admission =
    | Admitted(identity: Identity)
    | Unauthorized(failure: Failure)
    | Forbidden(failure: Failure)
    | Elsewhere(token: string)

  function BearerToken(t: Text, values: seq<string>): Result<string, Failure> {
    if |values| == 0 then Err(AbsentHeader)
    else if |values| > 1 then Err(RepeatedHeader)
    else
      var parts := t.fields(values[0]);
      if |parts| != 2 || !t.isBearer(parts[0]) || parts[1] == [] then Err(MalformedHeader) else Ok(parts[1])
  }

  function Admit(t: Text, config: Config, now: int, vault: Vault, values: seq<string>): Admission
    requires WellFiled(vault)
  {
    match BearerToken(t, values)
    case Err(failure) => Unauthorized(failure)
    case Ok(token) =>
      if !IsSealedCredential(token) then Elsewhere(token)
      else
        match Unseal(vault, Access, token)
        case Err(e) => Unauthorized(if e == WrongPurpose then SealedCredentialWrongPurpose else SealedCredentialCorrupt)
        case Ok(sealed) =>
          if sealed.expiresAt <= now then Unauthorized(SealedCredentialExpired)
          else if sealed.subject == [] || t.normalise(sealed.email) == [] then Forbidden(NoEmailInToken)
          else if !Allows(t, config, sealed.email) then Forbidden(NotAllowlisted)
          else if !sealed.verified then Forbidden(EmailUnverified)
          else Admitted(Identity(sealed.subject, sealed.email, sealed.verified))
  }

  // ----- the machine -----

  /**
    `grantOf` and `revoked` are Google's: which grant each refresh token it issued belongs to, and
    the grants it no longer honours.
   */
  datatype State = State(
    config: Config, now: int, vault: Vault, states: map<Bytes, CallbackState>,
    grantOf: map<string, nat>, revoked: set<nat>)

  datatype Action =
    | Authorize(request: CallbackState, stateBody: Bytes)
    | Callback(
        googleCode: string, stateValue: string, exchange: Exchange, identity: Option<Identity>, codeBody: Bytes)
    | Token(
        tokenRequest: TokenRequest, renewal: Renewal, identity: Option<Identity>, accessBody: Bytes, refreshBody: Bytes)
    | Request(values: seq<string>)
    | Tick(seconds: nat)
    | Restart(config: Config)
    | Revoke(grant: nat)

  /** What a step did. Bodies are the sealed bytes it drew, or was shown in whatever letters. */
  datatype Event =
    | Began(stateBody: Bytes, redirectURI: string, challenge: string, challengeMethod: string)
    | CodeIssued(codeBody: Bytes, stateBody: Bytes, challenge: string, identity: Identity, grant: nat)
    | Redeemed(
        accessBody: Bytes, refreshBody: Bytes, codeBody: Bytes, verifier: string, redirectURI: string,
        identity: Identity, grant: nat)
    | Renewed(
        accessBody: Bytes, rotated: Option<Bytes>, presented: Bytes, upstream: string,
        identity: Identity, grant: nat)
    | RequestAdmitted(accessBody: Bytes, identity: Identity)
    | Withdrawn(grant: nat)
    | Nothing

  /** When a step happened, and under which configuration. */
  datatype Entry = Entry(at: int, config: Config, event: Event)

  predicate Fresh(s: State, purpose: Purpose, body: Bytes) {
    IsBody(body) && (purpose, body) !in s.vault
  }

  /** Google honours a grant until it is withdrawn, and a refresh token belongs to one grant for good. */
  predicate Honest(s: State, a: Action)
    requires WellFiled(s.vault)
  {
    match a
    case Callback(_, _, exchange, _, _) =>
      exchange.Tokens? ==>
        && exchange.grant !in s.revoked
        && (exchange.refreshToken in s.grantOf ==> s.grantOf[exchange.refreshToken] == exchange.grant)
    case Token(request, renewal, _, _, _) =>
      renewal.RenewedTokens? && Upstream(s.vault, request).Some? ==>
        var upstream := Upstream(s.vault, request).value;
        && upstream in s.grantOf && s.grantOf[upstream] !in s.revoked
        && (renewal.refreshToken in s.grantOf ==> s.grantOf[renewal.refreshToken] == s.grantOf[upstream])
    case _ => true
  }

  /** Sealing draws a body never drawn before for its purpose. */
  predicate Draws(s: State, a: Action) {
    match a
    case Authorize(_, stateBody) => stateBody !in s.states
    case Callback(_, _, _, _, codeBody) => Fresh(s, AuthorizationCode, codeBody)
    case Token(_, _, _, accessBody, refreshBody) => Fresh(s, Access, accessBody) && Fresh(s, Refresh, refreshBody)
    case _ => true
  }

  predicate Possible(s: State, a: Action)
    requires WellFiled(s.vault)
  {
    Draws(s, a) && Honest(s, a)
  }

  function OrNone(body: Option<Bytes>): Bytes {
    if body.Some? then body.value else []
  }

  /** The bytes a credential's letters spell. */
  function BodyOf(value: string): Bytes {
    match ParseCredential(value)
    case Ok((_, letters)) => OrNone(Base64.Decode(letters))
    case Err(_) => []
  }

  function GrantOf(s: State, secret: string): nat {
    if secret in s.grantOf then s.grantOf[secret] else 0
  }

  function AuthorizeStep(s: State, request: CallbackState, stateBody: Bytes): (State, Event) {
    match Start(s.config, request)
    case Err(_) => (s, Nothing)
    case Ok(state) =>
      (s.(states := s.states[stateBody := state]),
       Began(stateBody, state.redirectURI, state.challenge, state.challengeMethod))
  }

  function CallbackStep(
    t: Text, s: State, googleCode: string, stateValue: string, exchange: Exchange, identity: Option<Identity>,
    codeBody: Bytes) : (State, Event)
  {
    match Finish(t, s.config, s.now, UnsealState(s.states, stateValue), googleCode, exchange, identity)
    case Err(_) => (s, Nothing)
    case Ok(code) =>
      (s.(vault := Seal(s.vault, code, codeBody), grantOf := s.grantOf[exchange.refreshToken := exchange.grant]),
       CodeIssued(codeBody, OrNone(StateBody(stateValue)), code.challenge, identity.value, exchange.grant))
  }

  function TokenStep(
    t: Text, s: State, request: TokenRequest, renewal: Renewal, identity: Option<Identity>, accessBody: Bytes,
    refreshBody: Bytes) : (State, Event)
    requires WellFiled(s.vault)
  {
    match Issue(t, s.config, s.now, s.vault, request, renewal, identity)
    case Err(_) => (s, Nothing)
    case Ok(issued) =>
      var sealed := Seal(s.vault, issued.access, accessBody);
      var who := Identity(issued.access.subject, issued.access.email, issued.access.verified);
      if request.grant == GRANT_AUTHORIZATION_CODE then
        (s.(vault := Seal(sealed, issued.refresh.value, refreshBody)),
         Redeemed(accessBody, refreshBody, BodyOf(request.code), request.verifier, request.redirectURI, who,
                  GrantOf(s, issued.refresh.value.upstreamSecret)))
      else
        var upstream := Upstream(s.vault, request).value;
        var grant := GrantOf(s, upstream);
        match issued.refresh
        case None =>
          (s.(vault := sealed), Renewed(accessBody, None, BodyOf(request.renewal), upstream, who, grant))
        case Some(refresh) =>
          (s.(vault := Seal(sealed, refresh, refreshBody), grantOf := s.grantOf[refresh.upstreamSecret := grant]),
           Renewed(accessBody, Some(refreshBody), BodyOf(request.renewal), upstream, who, grant))
  }

  function RequestEvent(t: Text, s: State, values: seq<string>): Event
    requires WellFiled(s.vault)
  {
    match Admit(t, s.config, s.now, s.vault, values)
    case Admitted(identity) => RequestAdmitted(BodyOf(BearerToken(t, values).value), identity)
    case _ => Nothing
  }

  function Step(t: Text, s: State, a: Action): (State, Event)
    requires WellFiled(s.vault)
  {
    match a
    case Authorize(request, stateBody) => AuthorizeStep(s, request, stateBody)
    case Callback(googleCode, stateValue, exchange, identity, codeBody) =>
      CallbackStep(t, s, googleCode, stateValue, exchange, identity, codeBody)
    case Token(request, renewal, identity, accessBody, refreshBody) =>
      TokenStep(t, s, request, renewal, identity, accessBody, refreshBody)
    case Request(values) => (s, RequestEvent(t, s, values))
    case Tick(seconds) => (s.(now := s.now + seconds), Nothing)
    case Restart(config) => (s.(config := config), Nothing)
    case Revoke(grant) => (s.(revoked := s.revoked + {grant}), Withdrawn(grant))
  }
}
