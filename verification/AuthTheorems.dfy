/**
  What the authorization flow promises of whole runs: where every admitted request comes from, how
  long a withdrawn grant lives, and that an honest client gets through.
 */
module AuthTheorems {
  import opened Wrappers
  import opened AuthSealing
  import opened AuthFlow
  import opened AuthRuns
  import Base64

  // ----- every admission traces back to a person at a browser -----

  /** A browser flow: an authorize step, the callback that answered it, and the redemption of its code. */
  ghost predicate Flow(t: Text, h: seq<Entry>, i: nat, j: nat, m: nat, grant: nat) {
    && i < j < m < |h|
    && h[i].event.Began? && h[j].event.CodeIssued? && h[m].event.Redeemed?
    && Accepts(h[i].config.redirectURIs, h[i].event.redirectURI)
    && h[i].event.challengeMethod == CHALLENGE_METHOD && h[i].event.challenge != []
    && h[j].event.stateBody == h[i].event.stateBody
    && h[j].event.identity.verified && Allows(t, h[j].config, h[j].event.identity.email)
    && h[m].event.codeBody == h[j].event.codeBody
    && t.s256(h[m].event.verifier) == h[j].event.challenge == h[i].event.challenge
    && h[m].event.identity == h[j].event.identity
    && h[j].at <= h[m].at < h[j].at + CODE_LIFETIME
    && h[m].event.grant == h[j].event.grant == grant
  }

  lemma FlowOf(t: Text, h: seq<Entry>, m: nat) returns (i: nat, j: nat)
    requires Past(t, h) && m < |h| && h[m].event.Redeemed?
    ensures Flow(t, h, i, j, m, h[m].event.grant)
  {
    assert Sound(t, h[..m], h[m]);
    var x := h[m];
    var challenge := t.s256(x.event.verifier);
    j :| j < |h[..m]| && h[..m][j].event.CodeIssued?
      && h[..m][j].event.codeBody == x.event.codeBody && h[..m][j].event.challenge == challenge
      && h[..m][j].event.identity == x.event.identity && h[..m][j].event.grant == x.event.grant
      && x.at < h[..m][j].at + CODE_LIFETIME
      && BeganBefore(h[..m][..j], h[..m][j].event.stateBody, challenge);
    assert h[..m][..j] == h[..j] && h[..m][j] == h[j];
    i :| i < |h[..j]| && h[..j][i].event.Began?
      && h[..j][i].event.stateBody == h[j].event.stateBody && h[..j][i].event.challenge == challenge;
    assert Sound(t, h[..j], h[j]) && Sound(t, h[..i], h[i]);
  }

  lemma PastOf(t: Text, h: seq<Entry>, n: nat)
    requires Past(t, h) && n <= |h|
    ensures Past(t, h[..n])
  {
    hide Sound;
    forall k: nat | k < n
      ensures Sound(t, h[..n][..k], h[..n][k])
    {
      assert h[..n][..k] == h[..k];
    }
  }

  /** However many renewals deep, a refresh credential leads back to the redemption of a code under its grant. */
  lemma {:induction false} RefreshLeadsBack(t: Text, h: seq<Entry>, body: Bytes, grant: nat) returns (m: nat)
    requires Past(t, h) && RefreshFrom(t, h, body, grant)
    ensures m < |h| && h[m].event.Redeemed? && h[m].event.grant == grant
    decreases |h|
  {
    var k: nat :| k < |h| && SealsRefresh(h[k].event, body, grant) && Traced(t, h[..k], h[k]);
    if h[k].event.Redeemed? {
      m := k;
    } else {
      PastOf(t, h, k);
      hide Past, RefreshFrom;
      m := RefreshLeadsBack(t, h[..k], h[k].event.presented, grant);
    }
  }

  lemma IssuanceLeadsBack(t: Text, h: seq<Entry>, k: nat) returns (i: nat, j: nat, m: nat)
    requires Past(t, h) && k < |h| && (h[k].event.Redeemed? || h[k].event.Renewed?)
    ensures Flow(t, h, i, j, m, h[k].event.grant) && m <= k
  {
    if h[k].event.Redeemed? {
      m := k;
    } else {
      assert Sound(t, h[..k], h[k]);
      PastOf(t, h, k);
      hide Past, RefreshFrom, Flow;
      m := RefreshLeadsBack(t, h[..k], h[k].event.presented, h[k].event.grant);
      assert h[..k][m] == h[m];
    }
    i, j := FlowOf(t, h, m);
  }

  /** What stands behind an admitted request: step `k` sealed the credential it showed. */
  ghost predicate Behind(t: Text, h: seq<Entry>, i: nat, j: nat, m: nat, k: nat, n: nat) {
    && m <= k < n < |h| && h[n].event.RequestAdmitted?
    && SealsAccess(h[k].event, h[n].event.accessBody)
    && Flow(t, h, i, j, m, h[k].event.grant)
    && h[k].event.identity == h[n].event.identity
    && h[n].event.identity.verified
    && Allows(t, h[k].config, h[n].event.identity.email) && Allows(t, h[n].config, h[n].event.identity.email)
    && h[k].at <= h[n].at < h[k].at + ACCESS_LIFETIME
  }

  /**
    In every run, whatever is replayed, swapped or relabelled and however often the process
    restarts, each admitted request stands on a browser flow: a registered redirect and an S256
    challenge, a verified and allowed Google identity, and a verifier hashing to that challenge.
   */
  lemma EveryAdmissionTraces(t: Text, config: Config, actions: seq<Action>, n: nat)
    requires var h := Run(t, config, actions).history; n < |h| && h[n].event.RequestAdmitted?
    ensures exists i: nat, j: nat, m: nat, k: nat :: Behind(t, Run(t, config, actions).history, i, j, m, k, n)
  {
    RunKeeps(t, config, actions);
    var h := Run(t, config, actions).history;
    assert Past(t, h);
    var i, j, m, k := AdmissionTraces(t, h, n);
  }

  lemma AdmissionTraces(t: Text, h: seq<Entry>, n: nat) returns (i: nat, j: nat, m: nat, k: nat)
    requires Past(t, h) && n < |h| && h[n].event.RequestAdmitted?
    ensures Behind(t, h, i, j, m, k, n)
  {
    assert Sound(t, h[..n], h[n]);
    hide Flow, Traced;
    k :| k < |h[..n]| && SealsAccess(h[..n][k].event, h[n].event.accessBody)
      && h[..n][k].event.identity == h[n].event.identity && h[n].at < h[..n][k].at + ACCESS_LIFETIME
      && Traced(t, h[..n][..k], h[..n][k]);
    assert h[..n][k] == h[k];
    assert Sound(t, h[..k], h[k]);
    i, j, m := IssuanceLeadsBack(t, h, k);
  }

  // ----- a withdrawn grant -----

  /** Every step that sealed this access credential is the same step. */
  lemma SealedOnce(t: Text, h: seq<Entry>, body: Bytes, k: nat, m: nat)
    requires Past(t, h) && k < |h| && m < |h| && SealsAccess(h[k].event, body) && SealsAccess(h[m].event, body)
    ensures k == m
  {
    hide Checked, Traced, Honoured, AccessFrom;
    assert Sound(t, h[..k], h[k]) && Sound(t, h[..m], h[m]);
  }

  lemma NotAfter(t: Text, h: seq<Entry>, r: nat, k: nat)
    requires Past(t, h) && r <= k < |h|
    ensures h[r].at <= h[k].at
    ensures r < k && h[r].event.Withdrawn? ==> !UsesGrant(h[k].event, h[r].event.grant)
  {
    hide Checked, Traced, IssuedOnce, AccessFrom;
    assert Sound(t, h[..k], h[k]);
    assert r < k ==> h[..k][r] == h[r];
  }

  /** Nothing is issued under a withdrawn grant once the codes it had sealed have run out. */
  lemma IssuedInTime(t: Text, h: seq<Entry>, r: nat, k: nat)
    requires Past(t, h) && r < |h| && k < |h| && h[r].event.Withdrawn?
    requires (h[k].event.Redeemed? || h[k].event.Renewed?) && h[k].event.grant == h[r].event.grant
    ensures h[k].at < h[r].at + CODE_LIFETIME
  {
    if k < r {
      NotAfter(t, h, k, r);
    } else {
      NotAfter(t, h, r, k);
      if h[k].event.Redeemed? {
        var i, j := FlowOf(t, h, k);
        hide Past;
        if j < r {
          NotAfter(t, h, j, r);
        } else {
          NotAfter(t, h, r, j);
        }
      }
    }
  }

  /**
    Once Google stops honouring a grant, no request is admitted under it one hour and five minutes
    later or after, whichever of its credentials is shown.
   */
  lemma WithdrawalEnds(t: Text, config: Config, actions: seq<Action>, r: nat, k: nat, n: nat)
    requires var h := Run(t, config, actions).history;
      && r < |h| && n < |h| && k < |h| && h[r].event.Withdrawn? && h[n].event.RequestAdmitted?
      && SealsAccess(h[k].event, h[n].event.accessBody) && h[k].event.grant == h[r].event.grant
    ensures var h := Run(t, config, actions).history;
      h[n].at < h[r].at + CODE_LIFETIME + ACCESS_LIFETIME
  {
    RunKeeps(t, config, actions);
    var h := Run(t, config, actions).history;
    assert Past(t, h);
    hide Past, Flow, Run;
    var i, j, m, sealed := AdmissionTraces(t, h, n);
    SealedOnce(t, h, h[n].event.accessBody, sealed, k);
    IssuedInTime(t, h, r, k);
  }

  // ----- an honest client gets through -----

  /** One client's visit, what Google answered for it, and what sealing drew for it. */
  datatype Visit = Visit(
    request: CallbackState, verifier: string, stateBody: Bytes,
    googleCode: string, refreshToken: string, grant: nat, identity: Identity, codeBody: Bytes,
    accessBody: Bytes, refreshBody: Bytes, values: seq<string>,
    atGoogle: nat, withdrawn: nat, untilToken: nat, untilRequest: nat)

  function Redemption(v: Visit): TokenRequest {
    TokenRequest(GRANT_AUTHORIZATION_CODE, Wire(AuthorizationCode, v.codeBody), v.verifier, v.request.redirectURI, [])
  }

  function TokenAction(v: Visit): Action {
    Token(Redemption(v), RenewalRefused, None, v.accessBody, v.refreshBody)
  }

  /** What Google is handed, and hands back. */
  function StateWire(body: Bytes): string {
    STATE_PREFIX + Base64.Encode(body)
  }

  lemma StateOpens(body: Bytes)
    ensures StateBody(StateWire(body)) == Some(body)
  {
    Base64.RoundTrip(body);
    assert StateWire(body)[|STATE_PREFIX|..] == Base64.Encode(body);
    hide Base64.Decode, Base64.Encode;
  }

  /** Some grant is withdrawn along the way, this visit's own or another. */
  function Actions(v: Visit): seq<Action> {
    [ Authorize(v.request, v.stateBody),
      Tick(v.atGoogle),
      Callback(v.googleCode, StateWire(v.stateBody), Tokens(v.refreshToken, v.grant), Some(v.identity), v.codeBody),
      Revoke(v.withdrawn),
      Tick(v.untilToken),
      TokenAction(v),
      Tick(v.untilRequest),
      Request(v.values)
    ]
  }

  /** A client with an S256 challenge of its own and a registered redirect, and a person who may come in. */
  ghost predicate Honestly(t: Text, s: State, v: Visit) {
    && Accepts(s.config.redirectURIs, v.request.redirectURI) && v.request.redirectURI != []
    && v.verifier != [] && v.request.challenge == t.s256(v.verifier) != []
    && v.request.challengeMethod == CHALLENGE_METHOD && v.request.googleVerifier != []
    && v.googleCode != [] && v.refreshToken != [] && v.grant !in s.revoked
    && (v.refreshToken in s.grantOf ==> s.grantOf[v.refreshToken] == v.grant)
    && v.identity.subject != [] && v.identity.verified && t.normalise(v.identity.email) != []
    && Allows(t, s.config, v.identity.email)
    && v.stateBody !in s.states
    && Fresh(s, AuthorizationCode, v.codeBody) && Fresh(s, Access, v.accessBody) && Fresh(s, Refresh, v.refreshBody)
    && BearerToken(t, v.values) == Ok(Wire(Access, v.accessBody))
  }

  /** The world after the first `n` of these actions. */
  function After(t: Text, w: World, actions: seq<Action>, n: nat): (r: World)
    requires WellFiled(w.state.vault) && n <= |actions|
    ensures WellFiled(r.state.vault)
  {
    if n == 0 then w
    else
      var before := After(t, w, actions, n - 1);
      NextWellFiled(t, before, actions[n - 1]);
      Next(t, before, actions[n - 1])
  }

  function CodeOf(w: World, v: Visit): Payload {
    CodeCredential(
      v.refreshToken, v.identity.subject, v.identity.email, v.identity.verified, v.request.challenge,
      v.request.challengeMethod, w.state.now + v.atGoogle + CODE_LIFETIME)
  }

  /** The state the token endpoint finds: nothing was stored but what was sealed. */
  function AtToken(w: World, v: Visit): State {
    w.state.(
      states := w.state.states[v.stateBody := v.request],
      vault := Seal(w.state.vault, CodeOf(w, v), v.codeBody),
      grantOf := w.state.grantOf[v.refreshToken := v.grant],
      revoked := w.state.revoked + {v.withdrawn},
      now := w.state.now + v.atGoogle + v.untilToken)
  }

  lemma CallbackSucceeds(t: Text, w: World, s: State, v: Visit)
    requires WellFiled(w.state.vault) && Honestly(t, w.state, v)
    requires s == w.state.(states := w.state.states[v.stateBody := v.request], now := w.state.now + v.atGoogle)
    ensures Possible(s, Actions(v)[2])
    ensures Step(t, s, Actions(v)[2]).0 ==
              s.(vault := Seal(s.vault, CodeOf(w, v), v.codeBody), grantOf := s.grantOf[v.refreshToken := v.grant])
  {
    StateOpens(v.stateBody);
    hide Allows, Accepts, BearerToken, WellFiled, Wire, StateBody, StateWire;
  }

  /** Time and withdrawn grants always move on. */
  lemma PassesOn(t: Text, w: World, seconds: nat, grant: nat)
    requires WellFiled(w.state.vault)
    ensures Next(t, w, Tick(seconds)).state == w.state.(now := w.state.now + seconds)
    ensures Next(t, w, Revoke(grant)).state == w.state.(revoked := w.state.revoked + {grant})
  {
    hide WellFiled;
  }

  lemma AuthorizeSucceeds(t: Text, w: World, v: Visit)
    requires WellFiled(w.state.vault) && Honestly(t, w.state, v)
    ensures Next(t, w, Actions(v)[0]).state == w.state.(states := w.state.states[v.stateBody := v.request])
  {
    hide Allows, Accepts, BearerToken, WellFiled, Wire;
  }

  lemma ReachesCallback(t: Text, w: World, v: Visit)
    requires WellFiled(w.state.vault) && Honestly(t, w.state, v)
    ensures After(t, w, Actions(v), 2).state ==
              w.state.(states := w.state.states[v.stateBody := v.request], now := w.state.now + v.atGoogle)
  {
    var a := Actions(v);
    assert After(t, w, a, 1) == Next(t, w, a[0]);
    hide Honestly, WellFiled, Next;
    AuthorizeSucceeds(t, w, v);
    PassesOn(t, After(t, w, a, 1), v.atGoogle, 0);
  }

  lemma ReachesRedirect(t: Text, w: World, v: Visit)
    requires WellFiled(w.state.vault) && Honestly(t, w.state, v)
    ensures After(t, w, Actions(v), 3).state ==
              AtToken(w, v).(now := w.state.now + v.atGoogle, revoked := w.state.revoked)
  {
    var a := Actions(v);
    var two := After(t, w, a, 2);
    assert After(t, w, a, 3) == Next(t, two, a[2]);
    ReachesCallback(t, w, v);
    hide Honestly, WellFiled, Next, After, Actions;
    CallbackSucceeds(t, w, two.state, v);
    NextIs(t, two, a[2]);
  }

  lemma ReachesToken(t: Text, w: World, v: Visit)
    requires WellFiled(w.state.vault) && Honestly(t, w.state, v)
    ensures After(t, w, Actions(v), 5).state == AtToken(w, v)
  {
    var a := Actions(v);
    assert After(t, w, a, 4) == Next(t, After(t, w, a, 3), a[3]);
    assert After(t, w, a, 5) == Next(t, After(t, w, a, 4), a[4]);
    ReachesRedirect(t, w, v);
    hide Honestly, WellFiled, Next, After;
    PassesOn(t, After(t, w, a, 3), 0, v.withdrawn);
    PassesOn(t, After(t, w, a, 4), v.untilToken, 0);
  }

  lemma NextIs(t: Text, w: World, a: Action)
    requires WellFiled(w.state.vault) && Possible(w.state, a)
    ensures Next(t, w, a).state == Step(t, w.state, a).0
    ensures Next(t, w, a).history == w.history + [Entry(w.state.now, w.state.config, Step(t, w.state, a).1)]
  {
  }

  function AccessOf(s: State, v: Visit): (p: Payload)
    ensures p.AccessCredential?
  {
    AccessCredential(v.identity.subject, v.identity.email, v.identity.verified, s.now + ACCESS_LIFETIME)
  }

  /** The state after the token endpoint, which issues only while the code lives. */
  function AtRequest(s: State, v: Visit): State {
    if v.untilToken < CODE_LIFETIME then
      s.(vault := Seal(Seal(s.vault, AccessOf(s, v), v.accessBody), RefreshCredential(v.refreshToken), v.refreshBody))
    else s
  }

  lemma WireNotBlank(purpose: Purpose, body: Bytes)
    ensures Wire(purpose, body) != []
  {
  }

  lemma CodeOpens(w: World, v: Visit)
    requires IsBody(v.codeBody)
    ensures Unseal(AtToken(w, v).vault, AuthorizationCode, Wire(AuthorizationCode, v.codeBody)) == Ok(CodeOf(w, v))
  {
    ParseWire(AuthorizationCode, v.codeBody);
    hide Wire, ParseCredential, Base64.Decode, Base64.Encode;
  }

  /** A code that opens and passes every check is redeemed, while it lives. */
  lemma CodeIsRedeemed(t: Text, config: Config, now: int, vault: Vault, request: TokenRequest, code: Payload)
    requires WellFiled(vault) && code.CodeCredential?
    requires request.code != [] && request.verifier != [] && request.redirectURI != []
    requires Accepts(config.redirectURIs, request.redirectURI)
    requires Unseal(vault, AuthorizationCode, request.code) == Ok(code)
    requires code.challengeMethod == CHALLENGE_METHOD && VerifierMatches(t, request.verifier, code.challenge)
    requires code.verified && Allows(t, config, code.email)
    ensures IssueFromCode(t, config, now, vault, request) ==
              if now < code.expiresAt then
                Ok(Issued(
                  AccessCredential(code.subject, code.email, code.verified, now + ACCESS_LIFETIME),
                  Some(RefreshCredential(code.upstreamSecret))))
              else Err(GrantUnusable)
  {
    hide Accepts, Unseal, VerifierMatches, Allows, WellFiled;
  }

  /** What the token endpoint makes of an authorization code that is redeemed, or is not. */
  lemma RedeemingStep(t: Text, s: State, a: Action, access: Payload, refresh: Payload, alive: bool)
    requires WellFiled(s.vault) && a.Token? && a.tokenRequest.grant == GRANT_AUTHORIZATION_CODE
    requires access.AccessCredential? && refresh.RefreshCredential?
    requires IssueFromCode(t, s.config, s.now, s.vault, a.tokenRequest) ==
               if alive then Ok(Issued(access, Some(refresh))) else Err(GrantUnusable)
    ensures Step(t, s, a).0 ==
              if alive then s.(vault := Seal(Seal(s.vault, access, a.accessBody), refresh, a.refreshBody)) else s
  {
    hide IssueFromCode, WellFiled, Seal, BodyOf, GrantOf;
  }

  lemma TokenPossible(t: Text, w: World, v: Visit)
    requires WellFiled(w.state.vault) && Honestly(t, w.state, v) && WellFiled(AtToken(w, v).vault)
    ensures Possible(AtToken(w, v), TokenAction(v))
  {
    hide Allows, Accepts, BearerToken, WellFiled, Wire, IsBody, Upstream;
  }

  lemma TokenRedeems(t: Text, w: World, v: Visit)
    requires WellFiled(w.state.vault) && Honestly(t, w.state, v) && WellFiled(AtToken(w, v).vault)
    ensures var s := AtToken(w, v);
      IssueFromCode(t, s.config, s.now, s.vault, Redemption(v)) ==
        if v.untilToken < CODE_LIFETIME then Ok(Issued(AccessOf(s, v), Some(RefreshCredential(v.refreshToken))))
        else Err(GrantUnusable)
  {
    hide *;
    var s := AtToken(w, v);
    AtTokenIs(w, v);
    RequestMeets(t, w.state, v);
    CodeMeets(t, w, v);
    CodeOpens(w, v);
    CodeIsRedeemed(t, s.config, s.now, s.vault, Redemption(v), CodeOf(w, v));
    AccessIs(s, v);
  }

  lemma AccessIs(s: State, v: Visit)
    ensures AccessOf(s, v) ==
              AccessCredential(v.identity.subject, v.identity.email, v.identity.verified, s.now + ACCESS_LIFETIME)
  {
  }

  lemma AtTokenIs(w: World, v: Visit)
    ensures AtToken(w, v).config == w.state.config
    ensures AtToken(w, v).now < CodeOf(w, v).expiresAt <==> v.untilToken < CODE_LIFETIME
  {
    hide Seal;
  }

  lemma RequestMeets(t: Text, s: State, v: Visit)
    requires Honestly(t, s, v)
    ensures var r := Redemption(v);
      && r.code == Wire(AuthorizationCode, v.codeBody) && r.code != [] && r.redirectURI != []
      && r.verifier == v.verifier && r.verifier != []
      && Accepts(s.config.redirectURIs, r.redirectURI)
  {
    WireNotBlank(AuthorizationCode, v.codeBody);
    hide Wire, Accepts, Allows, BearerToken, Fresh;
  }

  lemma CodeMeets(t: Text, w: World, v: Visit)
    requires Honestly(t, w.state, v)
    ensures IsBody(v.codeBody)
    ensures var code := CodeOf(w, v);
      && code.CodeCredential? && code.challengeMethod == CHALLENGE_METHOD
      && VerifierMatches(t, v.verifier, code.challenge) && code.verified && Allows(t, w.state.config, code.email)
      && code.subject == v.identity.subject && code.email == v.identity.email
      && code.verified == v.identity.verified && code.upstreamSecret == v.refreshToken
  {
    hide Wire, Accepts, Allows, BearerToken;
  }

  lemma TokenActionIs(v: Visit)
    ensures var a := TokenAction(v);
      && a.Token? && a.tokenRequest == Redemption(v) && a.accessBody == v.accessBody && a.refreshBody == v.refreshBody
      && a.tokenRequest.grant == GRANT_AUTHORIZATION_CODE
  {
    hide Wire;
  }

  lemma AtRequestIs(s: State, v: Visit)
    ensures AtRequest(s, v) ==
              if v.untilToken < CODE_LIFETIME then s.(vault := Seal(Seal(s.vault, AccessOf(s, v), v.accessBody),
                                                                    RefreshCredential(v.refreshToken), v.refreshBody))
              else s
  {
    hide Seal;
  }

  lemma TokenSucceeds(t: Text, w: World, v: Visit)
    requires WellFiled(w.state.vault) && Honestly(t, w.state, v) && WellFiled(AtToken(w, v).vault)
    ensures Possible(AtToken(w, v), TokenAction(v))
    ensures Step(t, AtToken(w, v), TokenAction(v)).0 == AtRequest(AtToken(w, v), v)
  {
    hide *;
    TokenPossible(t, w, v);
    TokenRedeems(t, w, v);
    TokenActionIs(v);
    var s := AtToken(w, v);
    AtRequestIs(s, v);
    RedeemingStep(
      t, s, TokenAction(v), AccessOf(s, v), RefreshCredential(v.refreshToken), v.untilToken < CODE_LIFETIME);
  }

  lemma ReachesRequest(t: Text, w: World, v: Visit)
    requires WellFiled(w.state.vault) && Honestly(t, w.state, v)
    ensures After(t, w, Actions(v), 7).state ==
              AtRequest(AtToken(w, v), v).(now := AtToken(w, v).now + v.untilRequest)
  {
    var a := Actions(v);
    var five := After(t, w, a, 5);
    assert After(t, w, a, 6) == Next(t, five, a[5]);
    assert After(t, w, a, 7) == Next(t, After(t, w, a, 6), a[6]);
    ReachesToken(t, w, v);
    hide Honestly, WellFiled, Next, After, AtToken, AtRequest;
    TokenSucceeds(t, w, v);
    NextIs(t, five, a[5]);
    PassesOn(t, After(t, w, a, 6), v.untilRequest, 0);
  }

  /** What the middleware makes of the credential, whether or not it was ever issued. */
  lemma RequestAnswer(t: Text, w: World, s: State, v: Visit)
    requires WellFiled(w.state.vault) && Honestly(t, w.state, v)
    requires s == AtRequest(AtToken(w, v), v).(now := AtToken(w, v).now + v.untilRequest) && WellFiled(s.vault)
    ensures RequestEvent(t, s, v.values) ==
              if v.untilToken < CODE_LIFETIME && v.untilRequest < ACCESS_LIFETIME
              then RequestAdmitted(v.accessBody, v.identity) else Nothing
  {
    ParseWire(Access, v.accessBody);
    WireIsMarked(Access, Base64.Encode(v.accessBody));
    WireIsWritten(Access, v.accessBody);
    hide Allows, Accepts, BearerToken, WellFiled, Wire, Written, ParseCredential, IsBody, IsSealedCredential,
      Base64.Decode, Base64.Encode;
  }

  /**
    From any world, a client that does what the standards ask is let in, exactly when it redeems its
    code within five minutes and shows its credential within the hour after. Even its own grant,
    withdrawn on the way, does not stop it sooner, so the bound on a withdrawn grant is the best there is.
   */
  lemma HonestClientAdmitted(t: Text, w: World, v: Visit)
    requires WellFiled(w.state.vault) && Honestly(t, w.state, v)
    ensures var h := After(t, w, Actions(v), 8).history;
      && |h| > 0 && h[|h| - 1].at == w.state.now + v.atGoogle + v.untilToken + v.untilRequest
      && (h[|h| - 1].event == RequestAdmitted(v.accessBody, v.identity) <==>
            v.untilToken < CODE_LIFETIME && v.untilRequest < ACCESS_LIFETIME)
  {
    var a := Actions(v);
    var seven := After(t, w, a, 7);
    assert After(t, w, a, 8) == Next(t, seven, a[7]);
    ReachesRequest(t, w, v);
    hide Honestly, WellFiled, Next, After;
    RequestAnswer(t, w, seven.state, v);
    NextIs(t, seven, a[7]);
  }

  /**
    Nothing this server sealed, for whatever purpose and in whatever letters, is ever passed on to the
    gateway or to Google as a token; a value of another purpose is refused for that, whatever its letters.
   */
  lemma OwnCredentialsStay(t: Text, s: State, values: seq<string>, purpose: Purpose, letters: string)
    requires WellFiled(s.vault) && BearerToken(t, values) == Ok(Written(purpose, letters))
    ensures !Admit(t, s.config, s.now, s.vault, values).Elsewhere?
    ensures purpose != Access && letters != [] && '.' !in letters ==>
              Admit(t, s.config, s.now, s.vault, values) == Unauthorized(SealedCredentialWrongPurpose)
  {
    WireIsMarked(purpose, letters);
    if letters != [] && '.' !in letters {
      ParseWritten(purpose, letters);
    }
    hide BearerToken, Written, ParseCredential, IsSealedCredential;
  }
}
