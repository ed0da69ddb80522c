/**
  What each step of the authorization flow does, from what a client presents and what Google and the
  clock say, with every constant and every condition written out: when it succeeds, why not when it
  does not, and what the credentials it hands out can then be used for, and for how long.
 */
module AuthLaws {
  import opened Wrappers
  import opened AuthSealing
  import opened AuthFlow
  import Base64

  // ----- on the wire -----

  /** The values a client may be handed, to the letter. */
  lemma WireFormat(letters: string)
    ensures Written(Access, letters) == "cdb1:a." + letters
    ensures Written(Refresh, letters) == "cdb1:r." + letters
    ensures Written(AuthorizationCode, letters) == "cdb1:c." + letters
  {
    assert "cdb1" + ":" + "a" + "." == "cdb1:a.";
    assert "cdb1" + ":" + "r" + "." == "cdb1:r.";
    assert "cdb1" + ":" + "c" + "." == "cdb1:c.";
  }

  predicate Figures(digits: string) {
    digits != [] && forall k :: 0 <= k < |digits| ==> '0' <= digits[k] <= '9'
  }

  /** What is taken for this server's own: the family's name, a number, and a colon, whatever follows. */
  lemma MarkedExactly(value: string)
    ensures IsSealedCredential(value) <==>
              exists digits, rest :: Figures(digits) && value == "cdb" + digits + ":" + rest
  {
    if IsSealedCredential(value) {
      var tail := value[3..];
      var n := Find(tail, ':');
      assert value == "cdb" + tail[..n] + ":" + tail[n + 1..];
      assert Figures(tail[..n]);
    }
    if digits, rest :| Figures(digits) && value == "cdb" + digits + ":" + rest {
      var tail := value[3..];
      assert tail == digits + (":" + rest);
      FindAt(digits, ":" + rest, ':');
      assert forall k :: 0 <= k < |digits| ==> tail[k] == digits[k];
    }
  }

  /** A value that opens, in whatever letters, to a payload sealed for that purpose. */
  ghost predicate Opens(vault: Vault, purpose: Purpose, value: string, p: Payload) {
    exists letters, body ::
      (purpose, body) in vault && vault[(purpose, body)] == p && Base64.Spells(letters, body)
      && value == Written(purpose, letters)
  }

  lemma OpensIs(vault: Vault, purpose: Purpose, value: string, p: Payload)
    requires WellFiled(vault)
    ensures Opens(vault, purpose, value, p) <==> Unseal(vault, purpose, value) == Ok(p)
  {
    hide Unseal, Base64.Spells, WellFiled, Written;
    OpensExactlyWhatWasSealed(vault, purpose, value);
  }

  /** What was handed out opens. */
  lemma HandedOpens(vault: Vault, purpose: Purpose, body: Bytes)
    requires WellFiled(vault) && (purpose, body) in vault
    ensures Opens(vault, purpose, Wire(purpose, body), vault[(purpose, body)])
  {
    hide Base64.Spells, Written, Base64.Encode, Base64.Decode;
    Base64.RoundTrip(body);
    Base64.DecodesExactly(Base64.Encode(body), body);
    assert Wire(purpose, body) == Written(purpose, Base64.Encode(body));
  }

  lemma OpensToOne(vault: Vault, purpose: Purpose, value: string, p: Payload, q: Payload)
    requires WellFiled(vault) && Opens(vault, purpose, value, p) && Opens(vault, purpose, value, q)
    ensures p == q
  {
    OpensIs(vault, purpose, value, p);
    OpensIs(vault, purpose, value, q);
  }

  /** A value is for another purpose exactly when it is written as one, whatever its letters spell. */
  lemma WrongPurposeExactly(vault: Vault, want: Purpose, value: string)
    ensures Unseal(vault, want, value) == Err(WrongPurpose) <==>
              exists other: Purpose, letters ::
                other != want && letters != "" && '.' !in letters && value == Written(other, letters)
  {
    hide Base64.Decode, Find;
    if Unseal(vault, want, value) == Err(WrongPurpose) {
      var (other, letters) := ParseCredential(value).value;
      WrittenAgain(value, other, letters);
    }
    if other: Purpose, letters :| other != want && letters != "" && '.' !in letters && value == Written(other, letters) {
      ParsesWritten(other, letters);
    }
  }

  lemma WrittenAgain(value: string, purpose: Purpose, letters: string)
    requires ParseCredential(value) == Ok((purpose, letters))
    ensures letters != "" && '.' !in letters && value == Written(purpose, letters)
  {
    var colon := Find(value, ':');
    var remainder := value[colon + 1..];
    var dot := Find(remainder, '.');
    assert value == value[..colon] + ":" + remainder;
    assert remainder == remainder[..dot] + "." + remainder[dot + 1..];
  }

  lemma ParsesWritten(purpose: Purpose, letters: string)
    requires letters != "" && '.' !in letters
    ensures ParseCredential(Written(purpose, letters)) == Ok((purpose, letters))
  {
    var value := Written(purpose, letters);
    var mark := LabelOf(purpose);
    assert value == "cdb1" + (":" + mark + "." + letters);
    FindAt("cdb1", ":" + mark + "." + letters, ':');
    assert value[..4] == "cdb1" && value[5..] == mark + ("." + letters);
    FindAt(mark, "." + letters, '.');
    assert value[5..][..1] == mark && value[5..][2..] == letters;
    hide Find;
  }

  // ----- the authorize endpoint -----

  /** A state is sealed exactly for a registered redirect and an S256 challenge, and is what was asked for. */
  lemma AuthorizeLaw(s: State, request: CallbackState, stateBody: Bytes)
    ensures var (later, e) := AuthorizeStep(s, request, stateBody);
      if request.redirectURI in s.config.redirectURIs && request.challenge != "" && request.challengeMethod == "S256"
      then
        && later == s.(states := s.states[stateBody := request])
        && e == Began(stateBody, request.redirectURI, request.challenge, "S256")
      else later == s && e == Nothing
    ensures request.redirectURI !in s.config.redirectURIs ==> Start(s.config, request) == Err(RedirectUnregistered)
    ensures request.redirectURI in s.config.redirectURIs && (request.challenge == "" || request.challengeMethod != "S256")
            ==> Start(s.config, request) == Err(ChallengeInvalid)
  {
  }

  /** A state that opens, in whatever letters, to what was sealed in it. */
  ghost predicate StateOpensTo(states: map<Bytes, CallbackState>, value: string, st: CallbackState) {
    exists letters, body ::
      body in states && states[body] == st && Base64.Spells(letters, body) && value == "cdbstate1:" + letters
  }

  lemma StateOpensIs(states: map<Bytes, CallbackState>, value: string, st: CallbackState)
    ensures StateOpensTo(states, value, st) <==> UnsealState(states, value) == Some(st)
  {
    hide Base64.Spells, Base64.Decode;
    if StateOpensTo(states, value, st) {
      var letters, body :| body in states && states[body] == st && Base64.Spells(letters, body)
        && value == "cdbstate1:" + letters;
      assert value[|STATE_PREFIX|..] == letters;
      Base64.DecodesExactly(letters, body);
    }
    if UnsealState(states, value) == Some(st) {
      var letters := value[|STATE_PREFIX|..];
      var body := Base64.Decode(letters).value;
      assert value == "cdbstate1:" + letters;
      Base64.DecodesExactly(letters, body);
    }
  }

  // ----- the callback -----

  /** Whom Google vouches for, and this configuration lets in. */
  predicate Welcome(t: Text, config: Config, identity: Option<Identity>) {
    && identity.Some? && identity.value.subject != "" && identity.value.verified
    && t.normalise(identity.value.email) in config.allowed
  }

  /** A state fit to finish with, under the configuration as it is now. */
  predicate Fit(config: Config, st: CallbackState) {
    && st.googleVerifier != "" && st.challenge != "" && st.challengeMethod == "S256"
    && st.redirectURI in config.redirectURIs
  }

  /** A code is sealed exactly when the state is this server's and still fit, Google answered, and the person is welcome. */
  lemma CallbackLaw(
    t: Text, s: State, googleCode: string, stateValue: string, st: CallbackState, exchange: Exchange,
    identity: Option<Identity>, codeBody: Bytes)
    requires StateOpensTo(s.states, stateValue, st)
    ensures var (later, e) := CallbackStep(t, s, googleCode, stateValue, exchange, identity, codeBody);
      if Fit(s.config, st) && googleCode != "" && exchange.Tokens? && exchange.refreshToken != ""
         && Welcome(t, s.config, identity)
      then
        var code := CodeCredential(
          exchange.refreshToken, identity.value.subject, identity.value.email, true, st.challenge, "S256", s.now + 300);
        && later == s.(vault := s.vault[(AuthorizationCode, codeBody) := code],
                       grantOf := s.grantOf[exchange.refreshToken := exchange.grant])
        && e.CodeIssued? && e.codeBody == codeBody && e.challenge == st.challenge && e.identity == identity.value
        && e.grant == exchange.grant
      else later == s && e == Nothing
  {
    StateOpensIs(s.states, stateValue, st);
    hide StateOpensTo, UnsealState, StateBody, OrNone;
  }

  /** Nothing is sealed for a state that is not this server's; and what each refusal is for. */
  lemma CallbackRefusals(
    t: Text, s: State, googleCode: string, stateValue: string, exchange: Exchange, identity: Option<Identity>,
    codeBody: Bytes)
    ensures var r := Finish(t, s.config, s.now, UnsealState(s.states, stateValue), googleCode, exchange, identity);
      var usable := googleCode != "" && exists st :: StateOpensTo(s.states, stateValue, st) && Fit(s.config, st);
      && (r == Err(AuthorizationResponse) <==> !usable)
      && (r == Err(ExchangeRefused) <==> usable && !(exchange.Tokens? && exchange.refreshToken != ""))
      && (r == Err(IdentityUnusable) <==>
            usable && exchange.Tokens? && exchange.refreshToken != "" && (identity.None? || identity.value.subject == ""))
      && (r == Err(IdentityRefused) <==>
            usable && exchange.Tokens? && exchange.refreshToken != "" && identity.Some? && identity.value.subject != ""
            && !Welcome(t, s.config, identity))
      && (r.Err? ==> CallbackStep(t, s, googleCode, stateValue, exchange, identity, codeBody) == (s, Nothing))
  {
    forall st
      ensures StateOpensTo(s.states, stateValue, st) <==> UnsealState(s.states, stateValue) == Some(st)
    {
      StateOpensIs(s.states, stateValue, st);
    }
    hide StateOpensTo, UnsealState, StateBody;
  }

  // ----- the token endpoint -----

  /** What the client has when it is answered: a credential to show, and one to renew with. */
  datatype Pair = Pair(access: string, renewal: string)

  /** What the token endpoint hands the client, if it succeeds: an unrotated credential comes back as it was presented. */
  function Answer(
    t: Text, s: State, request: TokenRequest, google: Renewal, identity: Option<Identity>, accessBody: Bytes,
    refreshBody: Bytes) : Option<Pair>
    requires WellFiled(s.vault)
  {
    match Issue(t, s.config, s.now, s.vault, request, google, identity)
    case Err(_) => None
    case Ok(issued) =>
      Some(Pair(
        Wire(Access, accessBody), if issued.refresh.Some? then Wire(Refresh, refreshBody) else request.renewal))
  }

  /** A credential that lets this person in for exactly an hour from `since`, while they are on the list. */
  ghost predicate GoodForAnHour(t: Text, vault: Vault, value: string, identity: Identity, since: int)
    requires WellFiled(vault)
  {
    forall config: Config, now: int, values: seq<string> :: BearerToken(t, values) == Ok(value) ==>
      var admitted := Admit(t, config, now, vault, values);
      && (admitted == Admitted(identity) <==>
            now < since + 3600 && t.normalise(identity.email) != "" && t.normalise(identity.email) in config.allowed)
      && (admitted.Admitted? ==> admitted == Admitted(identity))
  }

  lemma IsGoodForAnHour(t: Text, vault: Vault, body: Bytes, identity: Identity, since: int)
    requires WellFiled(vault) && identity.verified && identity.subject != ""
    requires (Access, body) in vault
    requires vault[(Access, body)] == AccessCredential(identity.subject, identity.email, true, since + 3600)
    ensures GoodForAnHour(t, vault, Wire(Access, body), identity, since)
  {
    HandedOpens(vault, Access, body);
    OpensIs(vault, Access, Wire(Access, body), vault[(Access, body)]);
    WireIsWritten(Access, body);
    WireIsMarked(Access, Base64.Encode(body));
    hide Unseal, Wire, Written, IsSealedCredential, WellFiled, Opens, BearerToken, Base64.Encode;
  }

  /** A renewal sends this to Google, or nothing. */
  lemma UpstreamIs(vault: Vault, request: TokenRequest, secret: string)
    requires WellFiled(vault) && Opens(vault, Refresh, request.renewal, RefreshCredential(secret))
    ensures Upstream(vault, request) == if secret == "" || IsSealedCredential(secret) then None else Some(secret)
  {
    OpensIs(vault, Refresh, request.renewal, RefreshCredential(secret));
    OpensNotBlank(vault, Refresh, request.renewal);
    hide Unseal, IsSealedCredential, WellFiled, Opens;
  }

  lemma OpensNotBlank(vault: Vault, purpose: Purpose, value: string)
    ensures Unseal(vault, purpose, value).Ok? ==> value != ""
  {
  }

  /** What the vault holds once a pair is sealed: all it held, an access credential, and perhaps a refresh credential. */
  ghost predicate Adds(
    before: Vault, later: Vault, access: Payload, accessBody: Bytes, again: Option<string>, refreshBody: Bytes)
  {
    && (forall key :: key in before ==> key in later && later[key] == before[key])
    && (forall key :: key in later && key !in before ==>
          key == (Access, accessBody) || (again.Some? && key == (Refresh, refreshBody)))
    && (Access, accessBody) in later && later[(Access, accessBody)] == access
    && (again.Some? ==>
          (Refresh, refreshBody) in later && later[(Refresh, refreshBody)] == RefreshCredential(again.value))
  }

  lemma AddsKeeps(
    before: Vault, later: Vault, access: Payload, accessBody: Bytes, again: Option<string>, refreshBody: Bytes)
    requires WellFiled(before) && access.AccessCredential? && IsBody(accessBody) && IsBody(refreshBody)
    requires Adds(before, later, access, accessBody, again, refreshBody)
    ensures WellFiled(later)
    ensures forall value, purpose, p :: Opens(before, purpose, value, p) ==> Opens(later, purpose, value, p)
  {
    hide Base64.Spells, Written, IsBody;
    forall value, purpose, p | Opens(before, purpose, value, p)
      ensures Opens(later, purpose, value, p)
    {
      var letters, body :| (purpose, body) in before && before[(purpose, body)] == p && Base64.Spells(letters, body)
        && value == Written(purpose, letters);
      assert (purpose, body) in later;
    }
    forall purpose, body | (purpose, body) in later
      ensures IsBody(body) && KindOf(later[(purpose, body)]) == purpose
    {
      if (purpose, body) in before {
        assert later[(purpose, body)] == before[(purpose, body)];
      }
    }
  }

  lemma SealedAdds(s: State, access: Payload, accessBody: Bytes, again: Option<string>, refreshBody: Bytes)
    requires access.AccessCredential? && Fresh(s, Access, accessBody) && Fresh(s, Refresh, refreshBody)
    ensures var one := Seal(s.vault, access, accessBody);
      Adds(s.vault, if again.Some? then Seal(one, RefreshCredential(again.value), refreshBody) else one,
           access, accessBody, again, refreshBody)
  {
  }

  /** What is true of every pair the token endpoint hands out. */
  ghost predicate Served(
    t: Text, s: State, later: State, pair: Pair, identity: Identity, accessBody: Bytes, renewsWith: string)
    requires WellFiled(s.vault)
  {
    && WellFiled(later.vault)
    && later == s.(vault := later.vault, grantOf := later.grantOf)
    && (forall purpose, value, p :: Opens(s.vault, purpose, value, p) ==> Opens(later.vault, purpose, value, p))
    && pair.access == Wire(Access, accessBody)
    && GoodForAnHour(t, later.vault, pair.access, identity, s.now)
    && Opens(later.vault, Refresh, pair.renewal, RefreshCredential(renewsWith))
  }

  /** The vault once a pair is sealed. */
  function Minted(s: State, access: Payload, accessBody: Bytes, again: Option<string>, refreshBody: Bytes): Vault
    requires access.AccessCredential?
  {
    var one := Seal(s.vault, access, accessBody);
    if again.Some? then Seal(one, RefreshCredential(again.value), refreshBody) else one
  }

  function Shown(accessBody: Bytes, again: Option<string>, refreshBody: Bytes, presented: string): Pair {
    Pair(Wire(Access, accessBody), if again.Some? then Wire(Refresh, refreshBody) else presented)
  }

  function HourOf(s: State, identity: Identity): Payload {
    AccessCredential(identity.subject, identity.email, true, s.now + 3600)
  }

  lemma PairIsServed(
    t: Text, s: State, identity: Identity, accessBody: Bytes, again: Option<string>, refreshBody: Bytes, presented: string,
    renewsWith: string, grantOf: map<string, nat>)
    requires WellFiled(s.vault) && Fresh(s, Access, accessBody) && Fresh(s, Refresh, refreshBody)
    requires identity.verified && identity.subject != ""
    requires if again.Some? then renewsWith == again.value
             else Opens(s.vault, Refresh, presented, RefreshCredential(renewsWith))
    ensures var later := s.(vault := Minted(s, HourOf(s, identity), accessBody, again, refreshBody), grantOf := grantOf);
      Served(t, s, later, Shown(accessBody, again, refreshBody, presented), identity, accessBody, renewsWith)
  {
    var access := HourOf(s, identity);
    var later := Minted(s, access, accessBody, again, refreshBody);
    SealedAdds(s, access, accessBody, again, refreshBody);
    AddsKeeps(s.vault, later, access, accessBody, again, refreshBody);
    IsGoodForAnHour(t, later, accessBody, identity, s.now);
    if again.Some? {
      HandedOpens(later, Refresh, refreshBody);
    }
    hide Seal, WellFiled, Opens, GoodForAnHour, Fresh, Wire;
  }

  function Sealing(again: Option<string>): Option<Payload> {
    if again.Some? then Some(RefreshCredential(again.value)) else None
  }

  /** What is issued is sealed and shown. */
  lemma HandsOut(
    t: Text, s: State, request: TokenRequest, google: Renewal, identity: Option<Identity>, accessBody: Bytes,
    refreshBody: Bytes, access: Payload, again: Option<string>)
    requires WellFiled(s.vault) && access.AccessCredential?
    requires Issue(t, s.config, s.now, s.vault, request, google, identity) == Ok(Issued(access, Sealing(again)))
    ensures Answer(t, s, request, google, identity, accessBody, refreshBody) ==
              Some(Shown(accessBody, again, refreshBody, request.renewal))
    ensures var later := TokenStep(t, s, request, google, identity, accessBody, refreshBody).0;
      later == s.(vault := Minted(s, access, accessBody, again, refreshBody), grantOf := later.grantOf)
  {
    hide Unseal, WellFiled, Seal, Wire, BodyOf, GrantOf, IsSealedCredential;
  }

  lemma HandsNothing(
    t: Text, s: State, request: TokenRequest, google: Renewal, identity: Option<Identity>, accessBody: Bytes,
    refreshBody: Bytes)
    requires WellFiled(s.vault) && Issue(t, s.config, s.now, s.vault, request, google, identity).Err?
    ensures Answer(t, s, request, google, identity, accessBody, refreshBody).None?
    ensures TokenStep(t, s, request, google, identity, accessBody, refreshBody) == (s, Nothing)
  {
    hide IssueFromCode, IssueFromRenewal, WellFiled, Seal, Wire, BodyOf, GrantOf;
  }

  /** A code that opens, and passes every check of the moment. */
  predicate Redeemable(t: Text, s: State, request: TokenRequest, p: Payload)
    requires p.CodeCredential?
  {
    && request.verifier != "" && request.redirectURI != "" && request.redirectURI in s.config.redirectURIs
    && s.now < p.expiresAt && p.challengeMethod == "S256" && t.s256(request.verifier) == p.challenge
    && p.verified && t.normalise(p.email) in s.config.allowed
  }

  lemma RedeemIssues(t: Text, s: State, request: TokenRequest, p: Payload, google: Renewal, identity: Option<Identity>)
    requires WellFiled(s.vault) && request.grant == "authorization_code"
    requires p.CodeCredential? && Opens(s.vault, AuthorizationCode, request.code, p)
    ensures var issued := Issue(t, s.config, s.now, s.vault, request, google, identity);
      if Redeemable(t, s, request, p) then
        issued == Ok(Issued(HourOf(s, Identity(p.subject, p.email, true)), Sealing(Some(p.upstreamSecret))))
      else issued.Err?
  {
    hide Unseal, WellFiled, Opens, IssueFromRenewal, Fresh, IsSealedCredential;
    OpensIs(s.vault, AuthorizationCode, request.code, p);
    OpensNotBlank(s.vault, AuthorizationCode, request.code);
  }

  lemma RedeemKeepsGrants(
    t: Text, s: State, request: TokenRequest, google: Renewal, identity: Option<Identity>, accessBody: Bytes,
    refreshBody: Bytes)
    requires WellFiled(s.vault) && request.grant == "authorization_code"
    ensures TokenStep(t, s, request, google, identity, accessBody, refreshBody).0.grantOf == s.grantOf
  {
    hide Unseal, WellFiled, Seal, BodyOf, GrantOf, IssueFromRenewal;
  }

  /**
    A code is redeemed exactly when it lives, its verifier hashes to its challenge, the redirect is
    registered and the person is still on the list. What the client then holds lets that person in for
    exactly the hour after, and renews with what Google answered the code with.
   */
  lemma RedeemLaw(
    t: Text, s: State, request: TokenRequest, p: Payload, google: Renewal, identity: Option<Identity>, accessBody: Bytes,
    refreshBody: Bytes)
    requires WellFiled(s.vault) && Fresh(s, Access, accessBody) && Fresh(s, Refresh, refreshBody)
    requires request.grant == "authorization_code" && p.CodeCredential? && p.subject != ""
    requires Opens(s.vault, AuthorizationCode, request.code, p)
    ensures var pair := Answer(t, s, request, google, identity, accessBody, refreshBody);
      var (later, e) := TokenStep(t, s, request, google, identity, accessBody, refreshBody);
      if Redeemable(t, s, request, p) then
        && pair.Some? && later.grantOf == s.grantOf
        && Served(t, s, later, pair.value, Identity(p.subject, p.email, true), accessBody, p.upstreamSecret)
      else pair.None? && later == s && e == Nothing
  {
    hide *;
    RedeemIssues(t, s, request, p, google, identity);
    if Redeemable(t, s, request, p) {
      var who := Identity(p.subject, p.email, true);
      var again := Some(p.upstreamSecret);
      HourIsAccess(s, who);
      HandsOut(t, s, request, google, identity, accessBody, refreshBody, HourOf(s, who), again);
      RedeemKeepsGrants(t, s, request, google, identity, accessBody, refreshBody);
      PairIsServed(t, s, who, accessBody, again, refreshBody, request.renewal, p.upstreamSecret, s.grantOf);
    } else {
      HandsNothing(t, s, request, google, identity, accessBody, refreshBody);
    }
  }

  lemma HourIsAccess(s: State, identity: Identity)
    ensures HourOf(s, identity).AccessCredential?
  {
  }

  /** What Google has renewed goes on under. */
  function Next(r1: string, r2: string): string {
    if r2 == "" then r1 else r2
  }

  /** The new refresh credential is for what Google answered with, if it is something else than before. */
  function Rotated(r1: string, r2: string): Option<string> {
    if r2 == "" || r2 == r1 then None else Some(r2)
  }

  predicate Renewed(t: Text, s: State, r1: string, google: Renewal, identity: Option<Identity>) {
    r1 != "" && !IsSealedCredential(r1) && google.RenewedTokens? && Welcome(t, s.config, identity)
  }

  lemma RenewalIssues(
    t: Text, s: State, request: TokenRequest, r1: string, google: Renewal, identity: Option<Identity>)
    requires WellFiled(s.vault) && request.grant == "refresh_token"
    requires Opens(s.vault, Refresh, request.renewal, RefreshCredential(r1))
    ensures var issued := Issue(t, s.config, s.now, s.vault, request, google, identity);
      if Renewed(t, s, r1, google, identity) then
        && identity.Some? && identity.value.verified && identity.value.subject != "" && google.RenewedTokens? && r1 != ""
        && issued == Ok(Issued(HourOf(s, identity.value), Sealing(Rotated(r1, google.refreshToken))))
      else issued.Err?
  {
    OpensIs(s.vault, Refresh, request.renewal, RefreshCredential(r1));
    OpensNotBlank(s.vault, Refresh, request.renewal);
    UpstreamIs(s.vault, request, r1);
    hide Unseal, WellFiled, Opens, IssueFromCode, IsSealedCredential, Upstream;
  }

  lemma RotatedIs(r1: string, r2: string)
    ensures var next := Next(r1, r2);
      && (r1 != "" ==> next != "")
      && (if Rotated(r1, r2).Some? then Rotated(r1, r2).value == next && next != r1 else next == r1)
  {
  }

  lemma ShownKept(accessBody: Bytes, again: Option<string>, refreshBody: Bytes, presented: string)
    ensures again.None? ==> Shown(accessBody, again, refreshBody, presented).renewal == presented
  {
  }

  /**
    A renewal succeeds exactly when the credential holds something to send Google, Google renews, and
    whom it vouches for is welcome now. Afterwards what the client holds lets that person in for exactly
    the hour after, and the next renewal sends Google what it answered with, if it answered with
    anything, and otherwise what was sent before; if that did not change, the client's credential does not.
   */
  lemma RenewalLaw(
    t: Text, s: State, request: TokenRequest, r1: string, google: Renewal, identity: Option<Identity>, accessBody: Bytes,
    refreshBody: Bytes)
    requires WellFiled(s.vault) && Fresh(s, Access, accessBody) && Fresh(s, Refresh, refreshBody)
    requires request.grant == "refresh_token" && Opens(s.vault, Refresh, request.renewal, RefreshCredential(r1))
    ensures var pair := Answer(t, s, request, google, identity, accessBody, refreshBody);
      var (later, e) := TokenStep(t, s, request, google, identity, accessBody, refreshBody);
      if Renewed(t, s, r1, google, identity) then
        var next := Next(r1, google.refreshToken);
        && pair.Some?
        && Served(t, s, later, pair.value, identity.value, accessBody, next)
        && Upstream(later.vault, request.(renewal := pair.value.renewal)) ==
             (if IsSealedCredential(next) then None else Some(next))
        && (next == r1 ==> pair.value.renewal == request.renewal)
      else pair.None? && later == s && e == Nothing
  {
    hide *;
    RenewalIssues(t, s, request, r1, google, identity);
    if Renewed(t, s, r1, google, identity) {
      var r2 := google.refreshToken;
      var again := Rotated(r1, r2);
      var later := TokenStep(t, s, request, google, identity, accessBody, refreshBody).0;
      RotatedIs(r1, r2);
      HourIsAccess(s, identity.value);
      HandsOut(t, s, request, google, identity, accessBody, refreshBody, HourOf(s, identity.value), again);
      PairIsServed(t, s, identity.value, accessBody, again, refreshBody, request.renewal, Next(r1, r2), later.grantOf);
      var pair := Shown(accessBody, again, refreshBody, request.renewal);
      ShownKept(accessBody, again, refreshBody, request.renewal);
      RenewsWith(t, s, later, pair, identity.value, accessBody, Next(r1, r2), request);
    } else {
      HandsNothing(t, s, request, google, identity, accessBody, refreshBody);
    }
  }

  lemma RenewsWith(
    t: Text, s: State, later: State, pair: Pair, identity: Identity, accessBody: Bytes, next: string, request: TokenRequest)
    requires WellFiled(s.vault) && Served(t, s, later, pair, identity, accessBody, next) && next != ""
    ensures WellFiled(later.vault)
    ensures Upstream(later.vault, request.(renewal := pair.renewal)) ==
              if IsSealedCredential(next) then None else Some(next)
  {
    hide WellFiled, Opens, GoodForAnHour, IsSealedCredential;
    UpstreamIs(later.vault, request.(renewal := pair.renewal), next);
  }

  // ----- the refusals -----

  /** Why a code is refused, in the order of the checks. */
  lemma RedeemRefusals(t: Text, s: State, request: TokenRequest)
    requires WellFiled(s.vault)
    ensures var r := IssueFromCode(t, s.config, s.now, s.vault, request);
      var whole := request.code != "" && request.verifier != "" && request.redirectURI != "";
      && (r == Err(RequestMalformed) <==> !whole)
      && (r == Err(IdentityRefused) <==>
            whole
            && (exists p ::
                  Opens(s.vault, AuthorizationCode, request.code, p) && p.CodeCredential?
                  && request.redirectURI in s.config.redirectURIs && s.now < p.expiresAt && p.challengeMethod == "S256"
                  && t.s256(request.verifier) == p.challenge
                  && !(p.verified && t.normalise(p.email) in s.config.allowed)))
      && (r.Err? && r.error != RequestMalformed && r.error != IdentityRefused ==> r.error == GrantUnusable)
  {
    forall p
      ensures Opens(s.vault, AuthorizationCode, request.code, p) <==> Unseal(s.vault, AuthorizationCode, request.code) == Ok(p)
    {
      OpensIs(s.vault, AuthorizationCode, request.code, p);
    }
    CodesAreCodes(s.vault, request.code);
    hide Unseal, Opens, WellFiled;
  }

  lemma CodesAreCodes(vault: Vault, value: string)
    requires WellFiled(vault)
    ensures Unseal(vault, AuthorizationCode, value).Ok? ==> Unseal(vault, AuthorizationCode, value).value.CodeCredential?
    ensures Unseal(vault, Refresh, value).Ok? ==> Unseal(vault, Refresh, value).value.RefreshCredential?
    ensures Unseal(vault, Access, value).Ok? ==> Unseal(vault, Access, value).value.AccessCredential?
  {
    hide ParseCredential, Base64.Decode;
  }

  /** Something to send Google is sealed in the credential that is shown. */
  ghost predicate Renewable(vault: Vault, value: string) {
    exists r1 :: Opens(vault, Refresh, value, RefreshCredential(r1)) && r1 != "" && !IsSealedCredential(r1)
  }

  /** Why a renewal is refused: what the client must do next depends on it. */
  lemma RenewalRefusals(t: Text, s: State, request: TokenRequest, google: Renewal, identity: Option<Identity>)
    requires WellFiled(s.vault)
    ensures var r := IssueFromRenewal(t, s.config, s.now, s.vault, request, google, identity);
      var able := Renewable(s.vault, request.renewal);
      && (r == Err(RequestMalformed) <==> request.renewal == "")
      && (r == Err(GrantUnusable) <==> request.renewal != "" && (!able || google.RenewalRefused?))
      && (r == Err(RenewalUnavailable) <==> able && google.RenewalFailed?)
      && (r == Err(IdentityUnusable) <==>
            able && google.RenewedTokens? && (identity.None? || identity.value.subject == ""))
      && (r == Err(IdentityRefused) <==>
            able && google.RenewedTokens? && identity.Some? && identity.value.subject != ""
            && !Welcome(t, s.config, identity))
      && (r.Ok? <==> able && google.RenewedTokens? && Welcome(t, s.config, identity))
  {
    forall r1
      ensures Opens(s.vault, Refresh, request.renewal, RefreshCredential(r1)) <==>
              Unseal(s.vault, Refresh, request.renewal) == Ok(RefreshCredential(r1))
    {
      OpensIs(s.vault, Refresh, request.renewal, RefreshCredential(r1));
    }
    CodesAreCodes(s.vault, request.renewal);
    OpensNotBlank(s.vault, Refresh, request.renewal);
    hide Unseal, Opens, WellFiled, IsSealedCredential;
  }

  /** Any other grant is refused as one that is not served. */
  lemma OtherGrants(
    t: Text, s: State, request: TokenRequest, google: Renewal, identity: Option<Identity>, accessBody: Bytes,
    refreshBody: Bytes)
    requires WellFiled(s.vault) && request.grant != "authorization_code" && request.grant != "refresh_token"
    ensures Issue(t, s.config, s.now, s.vault, request, google, identity) == Err(GrantUnsupported)
    ensures TokenStep(t, s, request, google, identity, accessBody, refreshBody) == (s, Nothing)
  {
    hide IssueFromCode, IssueFromRenewal;
  }

  // ----- the middleware -----

  /** The one bearer token a request carries. */
  predicate Carries(t: Text, values: seq<string>, token: string) {
    && |values| == 1 && |t.fields(values[0])| == 2 && t.isBearer(t.fields(values[0])[0])
    && t.fields(values[0])[1] == token && token != ""
  }

  lemma CarriesIs(t: Text, values: seq<string>, token: string)
    ensures Carries(t, values, token) <==> BearerToken(t, values) == Ok(token)
  {
  }

  /**
    A request is let in by this server's own credentials exactly when it carries one that opens and has
    not run out, for someone with a subject and an address, on the list, and verified.
   */
  lemma AdmitLaw(t: Text, config: Config, now: int, vault: Vault, values: seq<string>, identity: Identity)
    requires WellFiled(vault)
    ensures Admit(t, config, now, vault, values) == Admitted(identity) <==>
              exists token, expires ::
                && Carries(t, values, token)
                && Opens(vault, Access, token, AccessCredential(identity.subject, identity.email, identity.verified, expires))
                && now < expires && identity.subject != "" && t.normalise(identity.email) != ""
                && t.normalise(identity.email) in config.allowed && identity.verified
  {
    hide Carries, BearerToken, Opens, Unseal, WellFiled, IsSealedCredential;
    forall token
      ensures Carries(t, values, token) <==> BearerToken(t, values) == Ok(token)
    {
      CarriesIs(t, values, token);
    }
    if BearerToken(t, values).Ok? {
      var token := BearerToken(t, values).value;
      forall p
        ensures Opens(vault, Access, token, p) <==> Unseal(vault, Access, token) == Ok(p)
        ensures Opens(vault, Access, token, p) ==> IsSealedCredential(token)
      {
        OpensIs(vault, Access, token, p);
        OpensMarked(vault, Access, token, p);
      }
      CodesAreCodes(vault, token);
      if Admit(t, config, now, vault, values) == Admitted(identity) {
        var p := Unseal(vault, Access, token).value;
        assert p == AccessCredential(identity.subject, identity.email, identity.verified, p.expiresAt);
      }
    }
  }

  lemma OpensMarked(vault: Vault, purpose: Purpose, value: string, p: Payload)
    ensures Opens(vault, purpose, value, p) ==> IsSealedCredential(value)
  {
    hide IsSealedCredential, Base64.Spells, Written;
    if Opens(vault, purpose, value, p) {
      var letters, body :| (purpose, body) in vault && vault[(purpose, body)] == p && Base64.Spells(letters, body)
        && value == Written(purpose, letters);
      WireIsMarked(purpose, letters);
    }
  }

  /** And what is said of a request that is not. */
  lemma AdmitRefusals(t: Text, config: Config, now: int, vault: Vault, values: seq<string>)
    requires WellFiled(vault)
    ensures var a := Admit(t, config, now, vault, values);
      && (a == Unauthorized(AbsentHeader) <==> |values| == 0)
      && (a == Unauthorized(RepeatedHeader) <==> |values| > 1)
      && (a == Unauthorized(MalformedHeader) <==> |values| == 1 && forall token :: !Carries(t, values, token))
    ensures forall token :: Carries(t, values, token) && !IsSealedCredential(token) ==>
              Admit(t, config, now, vault, values) == Elsewhere(token)
    ensures forall token, p :: Carries(t, values, token) && Opens(vault, Access, token, p) ==>
              var a := Admit(t, config, now, vault, values);
              && p.AccessCredential?
              && (a == Unauthorized(SealedCredentialExpired) <==> p.expiresAt <= now)
              && (a == Forbidden(NoEmailInToken) <==>
                    now < p.expiresAt && (p.subject == "" || t.normalise(p.email) == ""))
              && (a == Forbidden(NotAllowlisted) <==>
                    now < p.expiresAt && p.subject != "" && t.normalise(p.email) != ""
                    && t.normalise(p.email) !in config.allowed)
              && (a == Forbidden(EmailUnverified) <==>
                    now < p.expiresAt && p.subject != "" && t.normalise(p.email) != ""
                    && t.normalise(p.email) in config.allowed && !p.verified)
    ensures forall token :: Carries(t, values, token) && IsSealedCredential(token)
                            && (forall p :: !Opens(vault, Access, token, p)) ==>
              || Admit(t, config, now, vault, values) == Unauthorized(SealedCredentialCorrupt)
              || Admit(t, config, now, vault, values) == Unauthorized(SealedCredentialWrongPurpose)
  {
    hide Opens, Unseal, WellFiled, IsSealedCredential;
    CarriesAll(t, values);
    if BearerToken(t, values).Ok? {
      var token := BearerToken(t, values).value;
      forall p
        ensures Opens(vault, Access, token, p) <==> Unseal(vault, Access, token) == Ok(p)
        ensures Opens(vault, Access, token, p) ==> IsSealedCredential(token)
      {
        OpensIs(vault, Access, token, p);
        OpensMarked(vault, Access, token, p);
      }
      CodesAreCodes(vault, token);
    }
    hide Carries;
  }

  lemma CarriesAll(t: Text, values: seq<string>)
    ensures forall token :: Carries(t, values, token) <==> BearerToken(t, values) == Ok(token)
    ensures BearerToken(t, values) ==
            if |values| == 0 then Err(AbsentHeader) else if |values| > 1 then Err(RepeatedHeader)
            else if BearerToken(t, values).Ok? then BearerToken(t, values) else Err(MalformedHeader)
  {
  }
}
