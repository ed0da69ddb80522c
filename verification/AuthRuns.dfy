/**
  What every run of the authorization flow keeps, across replayed, swapped and relabelled values
  and across restarts with one sealing secret.
 */
module AuthRuns {
  import opened Wrappers
  import opened AuthSealing
  import opened AuthFlow

  datatype World = World(state: State, history: seq<Entry>)

  function Initial(config: Config): World {
    World(State(config, 0, map[], map[], map[], {}), [])
  }

  /** One action, if the environment can supply it: it happens, and is written down. */
  function Next(t: Text, w: World, a: Action): World
    requires WellFiled(w.state.vault)
  {
    if Possible(w.state, a) then
      var (s, event) := Step(t, w.state, a);
      World(s, w.history + [Entry(w.state.now, w.state.config, event)])
    else w
  }

  lemma SealWellFiled(vault: Vault, payload: Payload, body: Bytes)
    requires WellFiled(vault) && IsBody(body)
    ensures WellFiled(Seal(vault, payload, body))
  {
  }

  lemma NextWellFiled(t: Text, w: World, a: Action)
    requires WellFiled(w.state.vault)
    ensures WellFiled(Next(t, w, a).state.vault)
  {
    if Possible(w.state, a) {
      StepWellFiled(t, w.state, a);
    }
  }

  lemma StepWellFiled(t: Text, s: State, a: Action)
    requires WellFiled(s.vault) && Draws(s, a)
    ensures WellFiled(Step(t, s, a).0.vault)
  {
    hide Unseal, Accepts, Allows, VerifierMatches, ValidState, UnsealState, Admit, BodyOf, WellFiled, Seal;
    match a
    case Callback(_, stateValue, exchange, identity, codeBody) =>
      var code := Finish(t, s.config, s.now, UnsealState(s.states, stateValue), a.googleCode, exchange, identity);
      if code.Ok? {
        SealWellFiled(s.vault, code.value, codeBody);
      }
    case Token(request, renewal, identity, accessBody, refreshBody) =>
      var issued := Issue(t, s.config, s.now, s.vault, request, renewal, identity);
      if issued.Ok? {
        SealWellFiled(s.vault, issued.value.access, accessBody);
        if issued.value.refresh.Some? {
          SealWellFiled(Seal(s.vault, issued.value.access, accessBody), issued.value.refresh.value, refreshBody);
        }
      }
    case _ =>
  }

  function Run(t: Text, config: Config, actions: seq<Action>): (w: World)
    ensures WellFiled(w.state.vault)
  {
    if actions == [] then Initial(config)
    else
      var before := Run(t, config, actions[..|actions| - 1]);
      NextWellFiled(t, before, actions[|actions| - 1]);
      Next(t, before, actions[|actions| - 1])
  }

  // ----- where a sealed value comes from -----

  /** An authorize step sealed this state, for this challenge. */
  ghost predicate BeganBefore(past: seq<Entry>, stateBody: Bytes, challenge: string) {
    exists i: nat :: i < |past| && past[i].event.Began?
      && past[i].event.stateBody == stateBody && past[i].event.challenge == challenge
  }

  /** A callback sealed this code for this challenge, person and grant, less than its lifetime before `at`. */
  ghost predicate CodeBefore(
    past: seq<Entry>, codeBody: Bytes, challenge: string, identity: Identity, grant: nat, at: int)
  {
    exists j: nat :: j < |past| && past[j].event.CodeIssued?
      && past[j].event.codeBody == codeBody && past[j].event.challenge == challenge
      && past[j].event.identity == identity && past[j].event.grant == grant
      && at < past[j].at + CODE_LIFETIME
      && BeganBefore(past[..j], past[j].event.stateBody, challenge)
  }

  /** A redeemed code, or a renewal, sealed this refresh credential, and so on back to a code. */
  ghost predicate RefreshFrom(t: Text, past: seq<Entry>, refreshBody: Bytes, grant: nat)
    decreases |past|, 0
  {
    exists k: nat :: k < |past| && SealsRefresh(past[k].event, refreshBody, grant) && Traced(t, past[..k], past[k])
  }

  predicate SealsRefresh(e: Event, refreshBody: Bytes, grant: nat) {
    match e
    case Redeemed(_, body, _, _, _, _, g) => body == refreshBody && g == grant
    case Renewed(_, rotated, _, _, _, g) => rotated == Some(refreshBody) && g == grant
    case _ => false
  }

  /** What issued a credential pair had the right to: a verifier hashing to the code's challenge, or a refresh credential. */
  ghost predicate Traced(t: Text, past: seq<Entry>, x: Entry)
    decreases |past|, 1
  {
    match x.event
    case Redeemed(_, _, codeBody, verifier, _, identity, grant) =>
      CodeBefore(past, codeBody, t.s256(verifier), identity, grant, x.at)
    case Renewed(_, _, presented, _, _, grant) => RefreshFrom(t, past, presented, grant)
    case CodeIssued(_, stateBody, challenge, _, _) => BeganBefore(past, stateBody, challenge)
    case _ => true
  }

  predicate SealsAccess(e: Event, accessBody: Bytes) {
    (e.Redeemed? || e.Renewed?) && e.accessBody == accessBody
  }

  /** This access credential was issued to this identity by a step that had the right to. */
  ghost predicate AccessFrom(t: Text, past: seq<Entry>, accessBody: Bytes, identity: Identity, at: int) {
    exists k: nat :: k < |past| && SealsAccess(past[k].event, accessBody) && past[k].event.identity == identity
      && at < past[k].at + ACCESS_LIFETIME
      && Traced(t, past[..k], past[k])
  }

  // ----- what each step was held to -----

  predicate Vouched(t: Text, config: Config, identity: Identity) {
    identity.verified && Allows(t, config, identity.email)
  }

  /** The checks of the moment, under the configuration of the moment. */
  predicate Checked(t: Text, x: Entry) {
    match x.event
    case Began(_, redirectURI, challenge, challengeMethod) =>
      Accepts(x.config.redirectURIs, redirectURI) && challenge != [] && challengeMethod == CHALLENGE_METHOD
    case CodeIssued(_, _, _, identity, _) => Vouched(t, x.config, identity)
    case Redeemed(_, _, _, _, redirectURI, identity, _) =>
      Vouched(t, x.config, identity) && Accepts(x.config.redirectURIs, redirectURI)
    case Renewed(_, _, _, upstream, identity, _) =>
      Vouched(t, x.config, identity) && !IsSealedCredential(upstream)
    case RequestAdmitted(_, identity) =>
      Vouched(t, x.config, identity) && identity.subject != [] && t.normalise(identity.email) != []
    case _ => true
  }

  predicate UsesGrant(e: Event, grant: nat) {
    (e.CodeIssued? || e.Renewed?) && e.grant == grant
  }

  /** Google was asked under this grant only while it honoured it. */
  ghost predicate Honoured(past: seq<Entry>, x: Entry) {
    forall r: nat, g :: r < |past| && past[r].event == Withdrawn(g) ==> !UsesGrant(x.event, g)
  }

  /** An access credential is issued once. */
  ghost predicate IssuedOnce(past: seq<Entry>, x: Entry) {
    x.event.Redeemed? || x.event.Renewed? ==>
      forall k: nat :: k < |past| ==> !SealsAccess(past[k].event, x.event.accessBody)
  }

  ghost predicate Sound(t: Text, past: seq<Entry>, x: Entry) {
    && Checked(t, x)
    && Traced(t, past, x)
    && Honoured(past, x)
    && IssuedOnce(past, x)
    && (x.event.RequestAdmitted? ==> AccessFrom(t, past, x.event.accessBody, x.event.identity, x.at))
    && (forall i: nat :: i < |past| ==> past[i].at <= x.at)
  }

  ghost predicate Past(t: Text, h: seq<Entry>) {
    forall k: nat :: k < |h| ==> Sound(t, h[..k], h[k])
  }

  // ----- what the sealed values in existence are -----

  ghost predicate StatesKept(s: State, h: seq<Entry>) {
    forall body :: body in s.states ==>
      exists i: nat :: i < |h| && h[i].event.Began? && h[i].event.stateBody == body
        && h[i].event.challenge == s.states[body].challenge
  }

  ghost predicate CodeKept(s: State, h: seq<Entry>, body: Bytes, p: Payload, j: nat) {
    && j < |h| && p.CodeCredential? && h[j].event.CodeIssued?
    && h[j].event.codeBody == body && h[j].event.challenge == p.challenge
    && h[j].event.identity == Identity(p.subject, p.email, p.verified)
    && p.expiresAt == h[j].at + CODE_LIFETIME
    && p.upstreamSecret in s.grantOf && s.grantOf[p.upstreamSecret] == h[j].event.grant
  }

  ghost predicate CodesKept(s: State, h: seq<Entry>) {
    forall body :: (AuthorizationCode, body) in s.vault ==>
      exists j: nat :: CodeKept(s, h, body, s.vault[(AuthorizationCode, body)], j)
  }

  ghost predicate RefreshesKept(t: Text, s: State, h: seq<Entry>) {
    forall body :: (Refresh, body) in s.vault ==>
      var p := s.vault[(Refresh, body)];
      p.RefreshCredential? && p.upstreamSecret in s.grantOf && RefreshFrom(t, h, body, s.grantOf[p.upstreamSecret])
  }

  ghost predicate AccessKept(h: seq<Entry>, body: Bytes, p: Payload, k: nat) {
    && k < |h| && p.AccessCredential? && SealsAccess(h[k].event, body)
    && h[k].event.identity == Identity(p.subject, p.email, p.verified)
    && p.expiresAt == h[k].at + ACCESS_LIFETIME
  }

  ghost predicate AccessesKept(s: State, h: seq<Entry>) {
    && (forall body :: (Access, body) in s.vault ==> exists k: nat :: AccessKept(h, body, s.vault[(Access, body)], k))
    && (forall k: nat :: k < |h| && (h[k].event.Redeemed? || h[k].event.Renewed?) ==>
          (Access, h[k].event.accessBody) in s.vault &&
          AccessKept(h, h[k].event.accessBody, s.vault[(Access, h[k].event.accessBody)], k))
  }

  ghost predicate RevokedKept(s: State, h: seq<Entry>) {
    forall r: nat, g :: r < |h| && h[r].event == Withdrawn(g) ==> g in s.revoked
  }

  ghost predicate Inv(t: Text, w: World) {
    && WellFiled(w.state.vault)
    && Past(t, w.history)
    && (forall i: nat :: i < |w.history| ==> w.history[i].at <= w.state.now)
    && StatesKept(w.state, w.history)
    && CodesKept(w.state, w.history)
    && RefreshesKept(t, w.state, w.history)
    && AccessesKept(w.state, w.history)
    && RevokedKept(w.state, w.history)
  }

  // ----- a longer history keeps what a shorter one said -----

  lemma Prefixes(h: seq<Entry>, x: Entry, k: nat)
    requires k <= |h|
    ensures (h + [x])[..k] == h[..k]
  {
  }

  lemma RefreshFromLater(t: Text, h: seq<Entry>, x: Entry, body: Bytes, grant: nat)
    requires RefreshFrom(t, h, body, grant)
    ensures RefreshFrom(t, h + [x], body, grant)
  {
    var k: nat :| k < |h| && SealsRefresh(h[k].event, body, grant) && Traced(t, h[..k], h[k]);
    Prefixes(h, x, k);
    hide Traced;
    assert (h + [x])[k] == h[k];
  }

  lemma RefreshFromNow(t: Text, h: seq<Entry>, x: Entry, body: Bytes, grant: nat)
    requires SealsRefresh(x.event, body, grant) && Traced(t, h, x)
    ensures RefreshFrom(t, h + [x], body, grant)
  {
    Prefixes(h, x, |h|);
    assert h[..|h|] == h;
    assert (h + [x])[|h|] == x;
  }

  lemma PastGrows(t: Text, h: seq<Entry>, x: Entry)
    requires Past(t, h) && Sound(t, h, x)
    ensures Past(t, h + [x])
  {
    hide Sound;
    forall k: nat | k < |h + [x]|
      ensures Sound(t, (h + [x])[..k], (h + [x])[k])
    {
      Prefixes(h, x, k);
      if k == |h| {
        assert h[..|h|] == h;
      }
    }
  }

  // ----- what is sealed stays accounted for -----

  /** Nothing sealed is lost, and no refresh token changes grants. */
  ghost predicate Grows(s: State, later: State) {
    && (forall body :: body in s.states ==> body in later.states && later.states[body] == s.states[body])
    && (forall key :: key in s.vault ==> key in later.vault && later.vault[key] == s.vault[key])
    && (forall secret :: secret in s.grantOf ==>
          secret in later.grantOf && later.grantOf[secret] == s.grantOf[secret])
    && s.revoked <= later.revoked
    && s.now <= later.now
  }

  lemma StatesGrow(s: State, h: seq<Entry>, later: State, x: Entry)
    requires StatesKept(s, h) && Grows(s, later)
    requires forall body :: body in later.states && body !in s.states ==>
               x.event.Began? && x.event.stateBody == body && x.event.challenge == later.states[body].challenge
    ensures StatesKept(later, h + [x])
  {
    forall body | body in later.states
      ensures exists i: nat :: i < |h + [x]| && (h + [x])[i].event.Began? && (h + [x])[i].event.stateBody == body
                && (h + [x])[i].event.challenge == later.states[body].challenge
    {
      if body in s.states {
        var i: nat :| i < |h| && h[i].event.Began? && h[i].event.stateBody == body
                      && h[i].event.challenge == s.states[body].challenge;
        assert (h + [x])[i] == h[i];
      } else {
        assert (h + [x])[|h|] == x;
      }
    }
  }

  lemma CodesGrow(s: State, h: seq<Entry>, later: State, x: Entry)
    requires CodesKept(s, h) && Grows(s, later)
    requires forall body :: (AuthorizationCode, body) in later.vault && (AuthorizationCode, body) !in s.vault ==>
               CodeKept(later, h + [x], body, later.vault[(AuthorizationCode, body)], |h|)
    ensures CodesKept(later, h + [x])
  {
    forall body | (AuthorizationCode, body) in later.vault
      ensures exists j: nat :: CodeKept(later, h + [x], body, later.vault[(AuthorizationCode, body)], j)
    {
      if (AuthorizationCode, body) in s.vault {
        var j: nat :| CodeKept(s, h, body, s.vault[(AuthorizationCode, body)], j);
        assert CodeKept(later, h + [x], body, later.vault[(AuthorizationCode, body)], j);
      }
    }
  }

  lemma RefreshesGrow(t: Text, s: State, h: seq<Entry>, later: State, x: Entry)
    requires RefreshesKept(t, s, h) && Grows(s, later)
    requires forall body :: (Refresh, body) in later.vault && (Refresh, body) !in s.vault ==>
               var p := later.vault[(Refresh, body)];
               && p.RefreshCredential? && p.upstreamSecret in later.grantOf
               && SealsRefresh(x.event, body, later.grantOf[p.upstreamSecret]) && Traced(t, h, x)
    ensures RefreshesKept(t, later, h + [x])
  {
    hide RefreshFrom, Traced, SealsRefresh;
    forall body | (Refresh, body) in later.vault
      ensures var p := later.vault[(Refresh, body)];
        p.RefreshCredential? && p.upstreamSecret in later.grantOf
        && RefreshFrom(t, h + [x], body, later.grantOf[p.upstreamSecret])
    {
      var p := later.vault[(Refresh, body)];
      if (Refresh, body) in s.vault {
        RefreshFromLater(t, h, x, body, s.grantOf[p.upstreamSecret]);
      } else {
        RefreshFromNow(t, h, x, body, later.grantOf[p.upstreamSecret]);
      }
    }
  }

  lemma AccessesGrow(s: State, h: seq<Entry>, later: State, x: Entry)
    requires AccessesKept(s, h) && Grows(s, later)
    requires forall body :: (Access, body) in later.vault && (Access, body) !in s.vault ==>
               AccessKept(h + [x], body, later.vault[(Access, body)], |h|)
    requires x.event.Redeemed? || x.event.Renewed? ==>
               (Access, x.event.accessBody) in later.vault && (Access, x.event.accessBody) !in s.vault
    ensures AccessesKept(later, h + [x])
  {
    forall body | (Access, body) in later.vault
      ensures exists k: nat :: AccessKept(h + [x], body, later.vault[(Access, body)], k)
    {
      if (Access, body) in s.vault {
        var k: nat :| AccessKept(h, body, s.vault[(Access, body)], k);
        assert AccessKept(h + [x], body, later.vault[(Access, body)], k);
      }
    }
    forall k: nat | k < |h + [x]| && ((h + [x])[k].event.Redeemed? || (h + [x])[k].event.Renewed?)
      ensures (Access, (h + [x])[k].event.accessBody) in later.vault
      ensures AccessKept(h + [x], (h + [x])[k].event.accessBody, later.vault[(Access, (h + [x])[k].event.accessBody)], k)
    {
      if k < |h| {
        assert (h + [x])[k] == h[k];
        assert AccessKept(h, h[k].event.accessBody, s.vault[(Access, h[k].event.accessBody)], k);
      } else {
        assert (h + [x])[k] == x;
      }
    }
  }

  // ----- every step keeps it -----

  /** A step's own obligations: what it was held to, and that whatever it sealed is accounted for. */
  ghost predicate Kept(t: Text, w: World, later: State, x: Entry) {
    && Grows(w.state, later)
    && Sound(t, w.history, x)
    && StatesKept(later, w.history + [x])
    && CodesKept(later, w.history + [x])
    && RefreshesKept(t, later, w.history + [x])
    && AccessesKept(later, w.history + [x])
    && (x.event.Withdrawn? ==> x.event.grant in later.revoked)
  }

  lemma KeptIsInv(t: Text, w: World, later: State, x: Entry)
    requires Inv(t, w) && WellFiled(later.vault) && x.at == w.state.now && Kept(t, w, later, x)
    ensures Inv(t, World(later, w.history + [x]))
  {
    hide Sound, StatesKept, CodesKept, RefreshesKept, AccessesKept, WellFiled;
    PastGrows(t, w.history, x);
    var h := w.history + [x];
    assert forall i: nat :: i < |h| ==> h[i] == if i < |w.history| then w.history[i] else x;
  }

  /** A step that seals nothing, whatever else it does. */
  lemma NothingSealed(t: Text, w: World, later: State, x: Entry)
    requires Inv(t, w) && Grows(w.state, later) && later.vault == w.state.vault
    requires forall body :: body in later.states && body !in w.state.states ==>
               x.event.Began? && x.event.stateBody == body && x.event.challenge == later.states[body].challenge
    requires Sound(t, w.history, x) && !x.event.Redeemed? && !x.event.Renewed?
    requires x.event.Withdrawn? ==> x.event.grant in later.revoked
    ensures Kept(t, w, later, x)
  {
    hide Sound, StatesKept, CodesKept, RefreshesKept, AccessesKept, RefreshFrom, Past;
    StatesGrow(w.state, w.history, later, x);
    CodesGrow(w.state, w.history, later, x);
    RefreshesGrow(t, w.state, w.history, later, x);
    AccessesGrow(w.state, w.history, later, x);
  }

  lemma QuietIsSound(t: Text, w: World, x: Entry)
    requires Inv(t, w) && x.at == w.state.now && (x.event.Nothing? || x.event.Withdrawn?)
    ensures Sound(t, w.history, x)
  {
    hide Past, StatesKept, CodesKept, RefreshesKept, AccessesKept, AccessFrom;
  }

  lemma AuthorizeKeeps(t: Text, w: World, request: CallbackState, stateBody: Bytes)
    requires Inv(t, w) && stateBody !in w.state.states
    ensures var (later, e) := AuthorizeStep(w.state, request, stateBody);
      Kept(t, w, later, Entry(w.state.now, w.state.config, e))
  {
    hide Past, StatesKept, CodesKept, RefreshesKept, AccessesKept, AccessFrom, Kept, RefreshFrom;
    var (later, e) := AuthorizeStep(w.state, request, stateBody);
    var x := Entry(w.state.now, w.state.config, e);
    assert Sound(t, w.history, x);
    NothingSealed(t, w, later, x);
  }

  lemma Opened(vault: Vault, want: Purpose, value: string)
    requires Unseal(vault, want, value).Ok?
    ensures (want, BodyOf(value)) in vault && Unseal(vault, want, value).value == vault[(want, BodyOf(value))]
  {
  }

  /** What admission says of the credential that was shown. */
  lemma AdmittedOpens(t: Text, s: State, values: seq<string>)
    requires WellFiled(s.vault) && Admit(t, s.config, s.now, s.vault, values).Admitted?
    ensures BearerToken(t, values).Ok?
    ensures var body := BodyOf(BearerToken(t, values).value);
      var identity := Admit(t, s.config, s.now, s.vault, values).identity;
      && (Access, body) in s.vault && s.vault[(Access, body)].AccessCredential?
      && var p := s.vault[(Access, body)];
         && s.now < p.expiresAt && identity == Identity(p.subject, p.email, p.verified)
         && Vouched(t, s.config, identity) && p.subject != [] && t.normalise(p.email) != []
  {
    hide Unseal, BodyOf, BearerToken, IsSealedCredential, Allows;
    Opened(s.vault, Access, BearerToken(t, values).value);
  }

  lemma RequestIsSound(t: Text, w: World, values: seq<string>)
    requires Inv(t, w)
    ensures Sound(t, w.history, Entry(w.state.now, w.state.config, RequestEvent(t, w.state, values)))
  {
    hide BodyOf, BearerToken, Admit, StatesKept, CodesKept, RefreshesKept, Vouched, WellFiled;
    var x := Entry(w.state.now, w.state.config, RequestEvent(t, w.state, values));
    if x.event.RequestAdmitted? {
      AdmittedOpens(t, w.state, values);
      AccessTraces(t, w, x.event.accessBody, x.event.identity, x.at);
    }
  }

  lemma AccessTraces(t: Text, w: World, body: Bytes, identity: Identity, at: int)
    requires Past(t, w.history) && AccessesKept(w.state, w.history)
    requires (Access, body) in w.state.vault && w.state.vault[(Access, body)].AccessCredential?
    requires var p := w.state.vault[(Access, body)]; at < p.expiresAt && identity == Identity(p.subject, p.email, p.verified)
    ensures AccessFrom(t, w.history, body, identity, at)
  {
    var k: nat :| AccessKept(w.history, body, w.state.vault[(Access, body)], k);
    hide Checked, RefreshFrom, Honoured, Traced, IssuedOnce;
    assert Sound(t, w.history[..k], w.history[k]);
  }

  lemma RequestKeeps(t: Text, w: World, values: seq<string>)
    requires Inv(t, w)
    ensures Kept(t, w, w.state, Entry(w.state.now, w.state.config, RequestEvent(t, w.state, values)))
  {
    var x := Entry(w.state.now, w.state.config, RequestEvent(t, w.state, values));
    RequestIsSound(t, w, values);
    hide Inv, Kept, Sound, Admit, BodyOf, BearerToken;
    NothingSealed(t, w, w.state, x);
  }

  /** The clock, a restart, a withdrawn grant, or a step that refused. */
  lemma QuietKeeps(t: Text, w: World, later: State, x: Entry)
    requires Inv(t, w) && Grows(w.state, later) && later.vault == w.state.vault && later.states == w.state.states
    requires x.at == w.state.now && (x.event.Nothing? || x.event.Withdrawn?)
    requires x.event.Withdrawn? ==> x.event.grant in later.revoked
    ensures Kept(t, w, later, x)
  {
    hide Inv, Kept, Sound;
    QuietIsSound(t, w, x);
    NothingSealed(t, w, later, x);
  }

  // ----- the callback -----

  /** What a finished callback was held to. */
  lemma FinishedWith(
    t: Text, s: State, googleCode: string, stateValue: string, exchange: Exchange, identity: Option<Identity>)
    requires Finish(t, s.config, s.now, UnsealState(s.states, stateValue), googleCode, exchange, identity).Ok?
    ensures OrNone(StateBody(stateValue)) in s.states
    ensures exchange.Tokens? && identity.Some? && Vouched(t, s.config, identity.value)
    ensures var code := Finish(t, s.config, s.now, UnsealState(s.states, stateValue), googleCode, exchange, identity).value;
      code == CodeCredential(
        exchange.refreshToken, identity.value.subject, identity.value.email, identity.value.verified,
        s.states[OrNone(StateBody(stateValue))].challenge, s.states[OrNone(StateBody(stateValue))].challengeMethod,
        s.now + CODE_LIFETIME)
  {
    hide ValidState, Allows, StateBody;
  }

  lemma BeganOf(s: State, h: seq<Entry>, body: Bytes)
    requires StatesKept(s, h) && body in s.states
    ensures BeganBefore(h, body, s.states[body].challenge)
  {
  }

  lemma NotWithdrawn(t: Text, w: World, x: Entry)
    requires RevokedKept(w.state, w.history)
    requires forall g :: UsesGrant(x.event, g) ==> g !in w.state.revoked
    ensures Honoured(w.history, x)
  {
  }

  lemma CallbackKeeps(
    t: Text, w: World, googleCode: string, stateValue: string, exchange: Exchange, identity: Option<Identity>,
    codeBody: Bytes)
    requires Inv(t, w) && Possible(w.state, Callback(googleCode, stateValue, exchange, identity, codeBody))
    requires var s := w.state;
      Finish(t, s.config, s.now, UnsealState(s.states, stateValue), googleCode, exchange, identity).Ok?
    ensures var (later, e) := CallbackStep(t, w.state, googleCode, stateValue, exchange, identity, codeBody);
      Kept(t, w, later, Entry(w.state.now, w.state.config, e))
  {
    var s, h := w.state, w.history;
    var (later, e) := CallbackStep(t, s, googleCode, stateValue, exchange, identity, codeBody);
    var x := Entry(s.now, s.config, e);
    hide Past, Finish, UnsealState, StateBody, OrNone, RefreshFrom, StatesKept, CodesKept, RefreshesKept, AccessesKept, BeganBefore, Honoured,
      Vouched, RevokedKept, AccessFrom;
    FinishedWith(t, s, googleCode, stateValue, exchange, identity);
    BeganOf(s, h, OrNone(StateBody(stateValue)));
    NotWithdrawn(t, w, x);
    assert (h + [x])[|h|] == x;
    StatesGrow(s, h, later, x);
    CodesGrow(s, h, later, x);
    RefreshesGrow(t, s, h, later, x);
    AccessesGrow(s, h, later, x);
  }

  // ----- the token endpoint -----

  /** What a redeemed code was held to. */
  lemma RedeemedWith(t: Text, s: State, request: TokenRequest)
    requires WellFiled(s.vault) && IssueFromCode(t, s.config, s.now, s.vault, request).Ok?
    ensures (AuthorizationCode, BodyOf(request.code)) in s.vault
    ensures s.vault[(AuthorizationCode, BodyOf(request.code))].CodeCredential?
    ensures var p := s.vault[(AuthorizationCode, BodyOf(request.code))];
      && s.now < p.expiresAt && t.s256(request.verifier) == p.challenge
      && Vouched(t, s.config, Identity(p.subject, p.email, p.verified))
      && Accepts(s.config.redirectURIs, request.redirectURI)
      && IssueFromCode(t, s.config, s.now, s.vault, request).value ==
           Issued(AccessCredential(p.subject, p.email, p.verified, s.now + ACCESS_LIFETIME),
                  Some(RefreshCredential(p.upstreamSecret)))
  {
    hide Unseal, BodyOf, Allows, Accepts;
    Opened(s.vault, AuthorizationCode, request.code);
  }

  lemma CodeTraces(t: Text, w: World, body: Bytes)
    requires Past(t, w.history) && CodesKept(w.state, w.history) && (AuthorizationCode, body) in w.state.vault
    requires w.state.vault[(AuthorizationCode, body)].CodeCredential?
    ensures var p := w.state.vault[(AuthorizationCode, body)];
      && p.upstreamSecret in w.state.grantOf
      && (w.state.now < p.expiresAt ==>
            CodeBefore(
              w.history, body, p.challenge, Identity(p.subject, p.email, p.verified),
              w.state.grantOf[p.upstreamSecret], w.state.now))
  {
    var j: nat :| CodeKept(w.state, w.history, body, w.state.vault[(AuthorizationCode, body)], j);
    hide Checked, RefreshFrom, Honoured, IssuedOnce, BeganBefore, AccessFrom;
    assert Sound(t, w.history[..j], w.history[j]);
  }

  lemma NeverIssued(s: State, h: seq<Entry>, x: Entry)
    requires AccessesKept(s, h)
    requires x.event.Redeemed? || x.event.Renewed? ==> (Access, x.event.accessBody) !in s.vault
    ensures IssuedOnce(h, x)
  {
  }

  /** A step that seals a credential pair, or an access credential alone. */
  lemma PairSealed(t: Text, w: World, later: State, x: Entry)
    requires Inv(t, w) && Sound(t, w.history, x) && Grows(w.state, later) && later.states == w.state.states
    requires x.event.Redeemed? || x.event.Renewed?
    requires (Access, x.event.accessBody) in later.vault && (Access, x.event.accessBody) !in w.state.vault
    requires later.vault[(Access, x.event.accessBody)] ==
               AccessCredential(x.event.identity.subject, x.event.identity.email, x.event.identity.verified,
                 x.at + ACCESS_LIFETIME)
    requires forall key :: key in later.vault && key !in w.state.vault && key.0 != Refresh ==>
               key == (Access, x.event.accessBody)
    requires forall body :: (Refresh, body) in later.vault && (Refresh, body) !in w.state.vault ==>
               var p := later.vault[(Refresh, body)];
               && p.RefreshCredential? && p.upstreamSecret in later.grantOf
               && SealsRefresh(x.event, body, later.grantOf[p.upstreamSecret])
    ensures Kept(t, w, later, x)
  {
    var h := w.history;
    assert (h + [x])[|h|] == x;
    assert Traced(t, h, x);
    hide Sound, Past, RefreshFrom, StatesKept, CodesKept, RefreshesKept, AccessesKept, Traced;
    StatesGrow(w.state, h, later, x);
    CodesGrow(w.state, h, later, x);
    RefreshesGrow(t, w.state, h, later, x);
    AccessesGrow(w.state, h, later, x);
  }

  /** Sealing an access credential and, with `again`, a refresh credential of the same grant. */
  function Issuing(
    s: State, upstream: string, identity: Identity, accessBody: Bytes, again: Option<(Bytes, string)>): State
    requires upstream in s.grantOf
  {
    var sealed := Seal(s.vault,
      AccessCredential(identity.subject, identity.email, identity.verified, s.now + ACCESS_LIFETIME), accessBody);
    match again
    case None => s.(vault := sealed)
    case Some((body, secret)) =>
      s.(vault := Seal(sealed, RefreshCredential(secret), body), grantOf := s.grantOf[secret := s.grantOf[upstream]])
  }

  lemma IssuingAdds(
    s: State, upstream: string, identity: Identity, accessBody: Bytes, again: Option<(Bytes, string)>)
    requires upstream in s.grantOf && Fresh(s, Access, accessBody)
    requires again.Some? ==>
               && Fresh(s, Refresh, again.value.0)
               && (again.value.1 in s.grantOf ==> s.grantOf[again.value.1] == s.grantOf[upstream])
    ensures var later := Issuing(s, upstream, identity, accessBody, again);
      && Grows(s, later) && later.states == s.states
      && (Access, accessBody) in later.vault && (Access, accessBody) !in s.vault
      && later.vault[(Access, accessBody)] ==
           AccessCredential(identity.subject, identity.email, identity.verified, s.now + ACCESS_LIFETIME)
      && (forall key :: key in later.vault && key !in s.vault && key.0 != Refresh ==> key == (Access, accessBody))
      && (forall body :: (Refresh, body) in later.vault && (Refresh, body) !in s.vault ==>
            var p := later.vault[(Refresh, body)];
            && again.Some? && body == again.value.0 && p == RefreshCredential(again.value.1)
            && p.upstreamSecret in later.grantOf && later.grantOf[p.upstreamSecret] == s.grantOf[upstream])
  {
  }

  lemma CodeIsSound(t: Text, w: World, request: TokenRequest, accessBody: Bytes, refreshBody: Bytes, p: Payload)
    requires Inv(t, w) && (Access, accessBody) !in w.state.vault
    requires IssueFromCode(t, w.state.config, w.state.now, w.state.vault, request).Ok?
    requires (AuthorizationCode, BodyOf(request.code)) in w.state.vault
    requires p == w.state.vault[(AuthorizationCode, BodyOf(request.code))] && p.CodeCredential?
    ensures p.upstreamSecret in w.state.grantOf
    ensures Sound(t, w.history,
      Entry(w.state.now, w.state.config,
        Redeemed(accessBody, refreshBody, BodyOf(request.code), request.verifier, request.redirectURI,
          Identity(p.subject, p.email, p.verified), w.state.grantOf[p.upstreamSecret])))
  {
    RedeemedWith(t, w.state, request);
    CodeTraces(t, w, BodyOf(request.code));
    var e := Redeemed(accessBody, refreshBody, BodyOf(request.code), request.verifier, request.redirectURI,
      Identity(p.subject, p.email, p.verified), w.state.grantOf[p.upstreamSecret]);
    var x := Entry(w.state.now, w.state.config, e);
    hide Past, IssueFromCode, BodyOf, StatesKept, CodesKept, RefreshesKept, AccessesKept, CodeBefore, Honoured,
      Vouched, RevokedKept, Accepts, WellFiled, IssuedOnce;
    NotWithdrawn(t, w, x);
    NeverIssued(w.state, w.history, x);
  }

  lemma CodeKeeps(t: Text, w: World, request: TokenRequest, accessBody: Bytes, refreshBody: Bytes, p: Payload)
    requires Inv(t, w) && Fresh(w.state, Access, accessBody) && Fresh(w.state, Refresh, refreshBody)
    requires IssueFromCode(t, w.state.config, w.state.now, w.state.vault, request).Ok?
    requires (AuthorizationCode, BodyOf(request.code)) in w.state.vault
    requires p == w.state.vault[(AuthorizationCode, BodyOf(request.code))] && p.CodeCredential?
    ensures p.upstreamSecret in w.state.grantOf
    ensures var identity := Identity(p.subject, p.email, p.verified);
      Kept(t, w, Issuing(w.state, p.upstreamSecret, identity, accessBody, Some((refreshBody, p.upstreamSecret))),
        Entry(w.state.now, w.state.config,
          Redeemed(accessBody, refreshBody, BodyOf(request.code), request.verifier, request.redirectURI,
            identity, w.state.grantOf[p.upstreamSecret])))
  {
    var identity := Identity(p.subject, p.email, p.verified);
    CodeIsSound(t, w, request, accessBody, refreshBody, p);
    var again := Some((refreshBody, p.upstreamSecret));
    IssuingAdds(w.state, p.upstreamSecret, identity, accessBody, again);
    var e := Redeemed(accessBody, refreshBody, BodyOf(request.code), request.verifier, request.redirectURI, identity,
      w.state.grantOf[p.upstreamSecret]);
    hide Sound, Inv, Kept, Issuing, Fresh, Grows, IssueFromCode, BodyOf;
    PairSealed(t, w, Issuing(w.state, p.upstreamSecret, identity, accessBody, again), Entry(w.state.now, w.state.config, e));
  }

  /** What a renewal was held to. */
  lemma RenewedWith(
    t: Text, s: State, request: TokenRequest, google: Renewal, identity: Option<Identity>)
    requires WellFiled(s.vault) && IssueFromRenewal(t, s.config, s.now, s.vault, request, google, identity).Ok?
    ensures Upstream(s.vault, request).Some? && google.RenewedTokens?
    ensures (Refresh, BodyOf(request.renewal)) in s.vault
    ensures var p := s.vault[(Refresh, BodyOf(request.renewal))];
      p.RefreshCredential? && p.upstreamSecret == Upstream(s.vault, request).value
    ensures !IsSealedCredential(Upstream(s.vault, request).value)
    ensures identity.Some? && Vouched(t, s.config, identity.value)
    ensures var p := IssueFromRenewal(t, s.config, s.now, s.vault, request, google, identity).value;
      && p.access == AccessCredential(
           identity.value.subject, identity.value.email, identity.value.verified, s.now + ACCESS_LIFETIME)
      && (p.refresh == None || p.refresh == Some(RefreshCredential(google.refreshToken)))
  {
    hide Unseal, BodyOf, Allows, IsSealedCredential;
    Opened(s.vault, Refresh, request.renewal);
  }

  lemma RenewalIsSound(
    t: Text, w: World, presented: Bytes, upstream: string, identity: Identity, accessBody: Bytes,
    rotated: Option<Bytes>)
    requires Inv(t, w) && (Access, accessBody) !in w.state.vault && (Refresh, presented) in w.state.vault
    requires w.state.vault[(Refresh, presented)] == RefreshCredential(upstream) && !IsSealedCredential(upstream)
    requires upstream in w.state.grantOf && w.state.grantOf[upstream] !in w.state.revoked
    requires Vouched(t, w.state.config, identity)
    ensures Sound(t, w.history,
      Entry(w.state.now, w.state.config,
        Renewed(accessBody, rotated, presented, upstream, identity, w.state.grantOf[upstream])))
  {
    var e := Renewed(accessBody, rotated, presented, upstream, identity, w.state.grantOf[upstream]);
    var x := Entry(w.state.now, w.state.config, e);
    assert RefreshFrom(t, w.history, presented, w.state.grantOf[upstream]);
    hide Past, RefreshFrom, StatesKept, CodesKept, RefreshesKept, AccessesKept, Honoured, Vouched, RevokedKept, WellFiled,
      IssuedOnce, IsSealedCredential;
    NotWithdrawn(t, w, x);
    NeverIssued(w.state, w.history, x);
  }

  /** A renewal, with `rotated` what was sealed anew, if Google rotated its own. */
  lemma RenewalKeeps(
    t: Text, w: World, presented: Bytes, upstream: string, identity: Identity, accessBody: Bytes,
    rotated: Option<(Bytes, string)>)
    requires Inv(t, w) && Fresh(w.state, Access, accessBody) && (Refresh, presented) in w.state.vault
    requires w.state.vault[(Refresh, presented)] == RefreshCredential(upstream) && !IsSealedCredential(upstream)
    requires upstream in w.state.grantOf && w.state.grantOf[upstream] !in w.state.revoked
    requires Vouched(t, w.state.config, identity)
    requires rotated.Some? ==>
               && Fresh(w.state, Refresh, rotated.value.0)
               && (rotated.value.1 in w.state.grantOf ==> w.state.grantOf[rotated.value.1] == w.state.grantOf[upstream])
    ensures Kept(t, w, Issuing(w.state, upstream, identity, accessBody, rotated),
      Entry(w.state.now, w.state.config,
        Renewed(accessBody, if rotated.Some? then Some(rotated.value.0) else None, presented, upstream, identity,
          w.state.grantOf[upstream])))
  {
    var again := if rotated.Some? then Some(rotated.value.0) else None;
    var x := Entry(w.state.now, w.state.config,
      Renewed(accessBody, again, presented, upstream, identity, w.state.grantOf[upstream]));
    RenewalIsSound(t, w, presented, upstream, identity, accessBody, again);
    IssuingAdds(w.state, upstream, identity, accessBody, rotated);
    hide Sound, Inv, Kept, Issuing, Fresh, Grows, IsSealedCredential, Vouched;
    PairSealed(t, w, Issuing(w.state, upstream, identity, accessBody, rotated), x);
  }

  // ----- every run -----

  lemma CodeStep(
    t: Text, s: State, request: TokenRequest, renewal: Renewal, identity: Option<Identity>, accessBody: Bytes,
    refreshBody: Bytes, p: Payload)
    requires WellFiled(s.vault) && request.grant == GRANT_AUTHORIZATION_CODE && p.CodeCredential?
    requires IssueFromCode(t, s.config, s.now, s.vault, request) ==
               Ok(Issued(AccessCredential(p.subject, p.email, p.verified, s.now + ACCESS_LIFETIME),
                         Some(RefreshCredential(p.upstreamSecret))))
    requires p.upstreamSecret in s.grantOf
    ensures var who := Identity(p.subject, p.email, p.verified);
      TokenStep(t, s, request, renewal, identity, accessBody, refreshBody) ==
        (Issuing(s, p.upstreamSecret, who, accessBody, Some((refreshBody, p.upstreamSecret))),
         Redeemed(accessBody, refreshBody, BodyOf(request.code), request.verifier, request.redirectURI, who,
                  s.grantOf[p.upstreamSecret]))
  {
    hide IssueFromCode, BodyOf, WellFiled;
    assert s.grantOf[p.upstreamSecret := s.grantOf[p.upstreamSecret]] == s.grantOf;
  }

  lemma RenewalStep(
    t: Text, s: State, request: TokenRequest, renewal: Renewal, identity: Option<Identity>, accessBody: Bytes,
    refreshBody: Bytes, upstream: string, refresh: Option<Payload>)
    requires WellFiled(s.vault) && request.grant == GRANT_REFRESH_TOKEN && identity.Some? && renewal.RenewedTokens?
    requires IssueFromRenewal(t, s.config, s.now, s.vault, request, renewal, identity) ==
               Ok(Issued(
                 AccessCredential(
                   identity.value.subject, identity.value.email, identity.value.verified, s.now + ACCESS_LIFETIME),
                 refresh))
    requires refresh == None || refresh == Some(RefreshCredential(renewal.refreshToken))
    requires Upstream(s.vault, request) == Some(upstream) && upstream in s.grantOf
    ensures var rotated := if refresh.Some? then Some((refreshBody, renewal.refreshToken)) else None;
      TokenStep(t, s, request, renewal, identity, accessBody, refreshBody) ==
        (Issuing(s, upstream, identity.value, accessBody, rotated),
         Renewed(accessBody, if rotated.Some? then Some(rotated.value.0) else None, BodyOf(request.renewal), upstream,
                 identity.value, s.grantOf[upstream]))
  {
    hide IssueFromRenewal, BodyOf, WellFiled, Upstream;
  }

  lemma CodeTokenKeeps(t: Text, w: World, a: Action)
    requires Inv(t, w) && Possible(w.state, a) && a.Token? && a.tokenRequest.grant == GRANT_AUTHORIZATION_CODE
    requires IssueFromCode(t, w.state.config, w.state.now, w.state.vault, a.tokenRequest).Ok?
    ensures var (later, e) := TokenStep(t, w.state, a.tokenRequest, a.renewal, a.identity, a.accessBody, a.refreshBody);
      Kept(t, w, later, Entry(w.state.now, w.state.config, e))
  {
    var s := w.state;
    RedeemedWith(t, s, a.tokenRequest);
    var p := s.vault[(AuthorizationCode, BodyOf(a.tokenRequest.code))];
    hide Kept, Inv, BodyOf, Vouched, Accepts, IssueFromCode, WellFiled, TokenStep, Issuing, Fresh;
    CodeKeeps(t, w, a.tokenRequest, a.accessBody, a.refreshBody, p);
    CodeStep(t, s, a.tokenRequest, a.renewal, a.identity, a.accessBody, a.refreshBody, p);
  }

  lemma RenewalTokenKeeps(t: Text, w: World, a: Action)
    requires Inv(t, w) && Possible(w.state, a) && a.Token? && a.tokenRequest.grant == GRANT_REFRESH_TOKEN
    requires IssueFromRenewal(t, w.state.config, w.state.now, w.state.vault, a.tokenRequest, a.renewal, a.identity).Ok?
    ensures var (later, e) := TokenStep(t, w.state, a.tokenRequest, a.renewal, a.identity, a.accessBody, a.refreshBody);
      Kept(t, w, later, Entry(w.state.now, w.state.config, e))
  {
    var s := w.state;
    RenewedWith(t, s, a.tokenRequest, a.renewal, a.identity);
    var refresh := IssueFromRenewal(t, s.config, s.now, s.vault, a.tokenRequest, a.renewal, a.identity).value.refresh;
    var upstream := Upstream(s.vault, a.tokenRequest).value;
    var rotated := if refresh.Some? then Some((a.refreshBody, a.renewal.refreshToken)) else None;
    hide Kept, Inv, BodyOf, Vouched, Accepts, IssueFromRenewal, WellFiled, Upstream, IsSealedCredential, TokenStep, Issuing,
      Fresh;
    RenewalKeeps(t, w, BodyOf(a.tokenRequest.renewal), upstream, a.identity.value, a.accessBody, rotated);
    RenewalStep(t, s, a.tokenRequest, a.renewal, a.identity, a.accessBody, a.refreshBody, upstream, refresh);
  }

  lemma StepKeeps(t: Text, w: World, a: Action)
    requires Inv(t, w) && Possible(w.state, a)
    ensures var (later, e) := Step(t, w.state, a);
      Kept(t, w, later, Entry(w.state.now, w.state.config, e))
  {
    var s := w.state;
    var (later, e) := Step(t, s, a);
    var x := Entry(s.now, s.config, e);
    hide Kept, IssueFromCode, IssueFromRenewal, Finish, UnsealState, BodyOf, Admit, BearerToken;
    match a
    case Authorize(request, stateBody) => AuthorizeKeeps(t, w, request, stateBody);
    case Callback(googleCode, stateValue, exchange, identity, codeBody) =>
      if Finish(t, s.config, s.now, UnsealState(s.states, stateValue), googleCode, exchange, identity).Ok? {
        CallbackKeeps(t, w, googleCode, stateValue, exchange, identity, codeBody);
      } else {
        QuietKeeps(t, w, later, x);
      }
    case Token(request, renewal, identity, accessBody, refreshBody) =>
      if Issue(t, s.config, s.now, s.vault, request, renewal, identity).Err? {
        QuietKeeps(t, w, later, x);
      } else if request.grant == GRANT_AUTHORIZATION_CODE {
        CodeTokenKeeps(t, w, a);
      } else {
        RenewalTokenKeeps(t, w, a);
      }
    case Request(values) => RequestKeeps(t, w, values);
    case Tick(_) => QuietKeeps(t, w, later, x);
    case Restart(_) => QuietKeeps(t, w, later, x);
    case Revoke(_) => QuietKeeps(t, w, later, x);
  }

  lemma NextKeeps(t: Text, w: World, a: Action)
    requires Inv(t, w)
    ensures Inv(t, Next(t, w, a))
  {
    if Possible(w.state, a) {
      StepKeeps(t, w, a);
      NextWellFiled(t, w, a);
      hide Inv, Kept, Step, WellFiled;
      var (later, e) := Step(t, w.state, a);
      KeptIsInv(t, w, later, Entry(w.state.now, w.state.config, e));
    }
  }

  lemma {:induction false} RunKeeps(t: Text, config: Config, actions: seq<Action>)
    ensures Inv(t, Run(t, config, actions))
  {
    if actions == [] {
    } else {
      RunKeeps(t, config, actions[..|actions| - 1]);
      hide Inv, Next;
      NextKeeps(t, Run(t, config, actions[..|actions| - 1]), actions[|actions| - 1]);
    }
  }
}
