/**
  The sealed credentials of internal/auth/sealing.go. Sealing is idealised: what a body's bytes open
  to, and for which purpose, is what this server once sealed them for, and no other bytes open. How a
  client spells those bytes in letters is its own affair.
 */
module AuthSealing {
  import opened Wrappers
  import Base64

  type Bytes = Base64.Bytes

  datatype Purpose = Access | Refresh | AuthorizationCode

  datatype Payload =
    | AccessCredential(subject: string, email: string, verified: bool, expiresAt: int)
    | RefreshCredential(upstreamSecret: string)
    | CodeCredential(
        upstreamSecret: string, subject: string, email: string, verified: bool,
        challenge: string, challengeMethod: string, expiresAt: int)

  datatype SealError =
    | EmptySealed
    | MissingPrefix
    | UnknownVersion
    | MalformedSealed
    | TruncatedSealed
    | CorruptSealed
    | WrongPurpose

  /** Everything sealed under the one sealing secret, by purpose and the bytes it was sealed into. */
  type Vault = map<(Purpose, Bytes), Payload>

  const FAMILY_PREFIX := "cdb"
  const CREDENTIAL_VERSION := "cdb1"

  /** The nonce and the tag of AES-GCM, which every sealed body has. */
  const NONCE_SIZE: nat := 12
  const OVERHEAD: nat := 16

  function LabelOf(purpose: Purpose): string {
    match purpose
    case Access => "a"
    case Refresh => "r"
    case AuthorizationCode => "c"
  }

  function KindOf(payload: Payload): Purpose {
    match payload
    case AccessCredential(_, _, _, _) => Access
    case RefreshCredential(_) => Refresh
    case CodeCredential(_, _, _, _, _, _, _) => AuthorizationCode
  }

  /** Bytes long enough to open. */
  predicate IsBody(body: Bytes) {
    |body| >= NONCE_SIZE + OVERHEAD
  }

  /** A value with these letters for a body. */
  function Written(purpose: Purpose, letters: string): string {
    CREDENTIAL_VERSION + ":" + LabelOf(purpose) + "." + letters
  }

  /** What a client is handed. */
  function Wire(purpose: Purpose, body: Bytes): string {
    Written(purpose, Base64.Encode(body))
  }

  function Find(s: string, c: char): (n: nat)
    ensures n <= |s|
    ensures n < |s| ==> s[n] == c
    ensures forall k :: 0 <= k < n ==> s[k] != c
  {
    if s == [] || s[0] == c then 0 else 1 + Find(s[1..], c)
  }

  /** Whether a value carries the family's numeric version marker, whatever version it claims. */
  predicate IsSealedCredential(value: string) {
    && FAMILY_PREFIX <= value
    && var rest := value[|FAMILY_PREFIX|..];
       var colon := Find(rest, ':');
       && 0 < colon < |rest|
       && forall k :: 0 <= k < colon ==> IsDigit(rest[k])
  }

  function ParseCredential(value: string): Result<(Purpose, string), SealError> {
    if value == [] then Err(EmptySealed)
    else
      var colon := Find(value, ':');
      if colon == |value| then Err(MissingPrefix)
      else if value[..colon] != CREDENTIAL_VERSION then Err(UnknownVersion)
      else
        var remainder := value[colon + 1..];
        var dot := Find(remainder, '.');
        if dot == |remainder| || '.' in remainder[dot + 1..] then Err(MalformedSealed)
        else
          var tag, letters := remainder[..dot], remainder[dot + 1..];
          if tag != "a" && tag != "r" && tag != "c" then Err(MalformedSealed)
          else if letters == [] then Err(TruncatedSealed)
          else Ok((if tag == "a" then Access else if tag == "r" then Refresh else AuthorizationCode, letters))
  }

  function Unseal(vault: Vault, want: Purpose, value: string): Result<Payload, SealError> {
    match ParseCredential(value)
    case Err(e) => Err(e)
    case Ok((purpose, letters)) =>
      if purpose != want then Err(WrongPurpose)
      else
        match Base64.Decode(letters)
        case None => Err(MalformedSealed)
        case Some(body) =>
          if !IsBody(body) then Err(TruncatedSealed)
          else if (want, body) !in vault then Err(CorruptSealed)
          else Ok(vault[(want, body)])
  }

  function Seal(vault: Vault, payload: Payload, body: Bytes): Vault {
    vault[(KindOf(payload), body) := payload]
  }

  /** Every value in the vault is of the kind it is filed under. */
  ghost predicate WellFiled(vault: Vault) {
    forall purpose, body :: (purpose, body) in vault ==> IsBody(body) && KindOf(vault[(purpose, body)]) == purpose
  }

  // ----- what opens is what was sealed -----

  lemma FindAt(prefix: string, rest: string, c: char)
    requires c !in prefix && rest != [] && rest[0] == c
    ensures Find(prefix + rest, c) == |prefix|
  {
    assert (prefix + rest)[|prefix|] == c;
    assert forall k :: 0 <= k < |prefix| ==> (prefix + rest)[k] == prefix[k];
  }

  lemma ParseWritten(purpose: Purpose, letters: string)
    requires letters != [] && '.' !in letters
    ensures ParseCredential(Written(purpose, letters)) == Ok((purpose, letters))
  {
    var tag := LabelOf(purpose);
    var remainder := tag + ("." + letters);
    var w := Written(purpose, letters);
    assert w == CREDENTIAL_VERSION + (":" + remainder);
    FindAt(CREDENTIAL_VERSION, ":" + remainder, ':');
    assert w[..4] == CREDENTIAL_VERSION;
    assert w[5..] == remainder;
    FindAt(tag, "." + letters, '.');
    assert remainder[..1] == tag && remainder[2..] == letters;
  }

  lemma ParsedWritten(value: string)
    requires ParseCredential(value).Ok?
    ensures var (purpose, letters) := ParseCredential(value).value; value == Written(purpose, letters)
  {
    var (purpose, letters) := ParseCredential(value).value;
    var colon := Find(value, ':');
    var remainder := value[colon + 1..];
    var dot := Find(remainder, '.');
    assert remainder == remainder[..dot] + "." + letters;
    assert value == value[..colon] + ":" + remainder;
    assert remainder[..dot] == LabelOf(purpose);
    assert value == CREDENTIAL_VERSION + ":" + (LabelOf(purpose) + "." + letters);
  }

  /** Letters that spell a body are parsed whole, and read as it. */
  lemma SpellingParses(purpose: Purpose, letters: string, body: Bytes)
    requires IsBody(body) && Base64.Spells(letters, body)
    ensures ParseCredential(Written(purpose, letters)) == Ok((purpose, letters)) && Base64.Decode(letters) == Some(body)
  {
    hide *;
    hide IsBody;
    Base64.DecodesExactly(letters, body);
    if '.' in letters {
      Base64.StopStaysUnread(letters);
    }
    NoLettersNoBody(letters, body);
    ParseWritten(purpose, letters);
  }

  lemma NoLettersNoBody(letters: string, body: Bytes)
    requires IsBody(body) && Base64.Decode(letters) == Some(body)
    ensures letters != []
  {
  }

  lemma ParseWire(purpose: Purpose, body: Bytes)
    requires IsBody(body)
    ensures ParseCredential(Wire(purpose, body)) == Ok((purpose, Base64.Encode(body)))
    ensures Base64.Decode(Base64.Encode(body)) == Some(body)
  {
    Base64.RoundTrip(body);
    Base64.DecodesExactly(Base64.Encode(body), body);
    SpellingParses(purpose, Base64.Encode(body), body);
    hide ParseCredential, Base64.Decode, Base64.Encode, Written;
  }

  /**
    A value opens for a purpose exactly when it carries that purpose's prefix and its letters spell
    bytes this server sealed for it, whichever of their spellings it is; and then it opens to what was
    sealed. Letters are no proof of identity: only the bytes are.
   */
  lemma OpensExactlyWhatWasSealed(vault: Vault, want: Purpose, value: string)
    requires WellFiled(vault)
    ensures Unseal(vault, want, value).Ok? <==>
              exists letters, body ::
                (want, body) in vault && Base64.Spells(letters, body) && value == Written(want, letters)
    ensures forall letters, body ::
              (want, body) in vault && Base64.Spells(letters, body) && value == Written(want, letters) ==>
              Unseal(vault, want, value) == Ok(vault[(want, body)])
  {
    hide ParseCredential, Base64.Decode, Base64.Spells, Written;
    forall letters, body | (want, body) in vault && Base64.Spells(letters, body) && value == Written(want, letters)
      ensures Unseal(vault, want, value) == Ok(vault[(want, body)])
    {
      SpellingParses(want, letters, body);
    }
    if Unseal(vault, want, value).Ok? {
      ParsedWritten(value);
      var letters := ParseCredential(value).value.1;
      Base64.DecodesExactly(letters, Base64.Decode(letters).value);
    }
  }

  /**
    Every sealed value has other spellings, and they open alike: with its line broken anywhere among
    the letters, say.
   */
  lemma RespeltOpens(vault: Vault, want: Purpose, body: Bytes, k: nat)
    requires WellFiled(vault) && (want, body) in vault && k <= |Base64.Encode(body)|
    ensures var letters := Base64.Encode(body);
      var respelt := Written(want, letters[..k] + ['\n'] + letters[k..]);
      && respelt != Wire(want, body)
      && Unseal(vault, want, respelt) == Unseal(vault, want, Wire(want, body)) == Ok(vault[(want, body)])
  {
    hide *;
    hide WellFiled;
    var letters := Base64.Encode(body);
    var broken := letters[..k] + ['\n'] + letters[k..];
    Base64.RoundTrip(body);
    Base64.DecodesExactly(letters, body);
    BrokenSpells(letters, k, body);
    WrittenApart(want, letters, broken);
    WireIsWritten(want, body);
    OpensExactlyWhatWasSealed(vault, want, Written(want, broken));
    OpensExactlyWhatWasSealed(vault, want, Written(want, letters));
  }

  lemma WireIsWritten(purpose: Purpose, body: Bytes)
    ensures Wire(purpose, body) == Written(purpose, Base64.Encode(body))
  {
  }

  lemma WrittenApart(purpose: Purpose, s: string, t: string)
    requires |s| != |t|
    ensures Written(purpose, s) != Written(purpose, t)
  {
    assert |Written(purpose, s)| == |Written(purpose, [])| + |s|;
    assert |Written(purpose, t)| == |Written(purpose, [])| + |t|;
  }

  lemma BrokenSpells(letters: string, k: nat, body: Bytes)
    requires k <= |letters| && Base64.Spells(letters, body)
    ensures Base64.Spells(letters[..k] + ['\n'] + letters[k..], body)
  {
    hide Base64.Spells, Base64.Unbroken;
    assert letters == letters[..k] + letters[k..];
    Base64.BreaksAnywhere(letters[..k], letters[k..], '\n');
    SameLetters(letters, letters[..k] + ['\n'] + letters[k..], body);
  }

  lemma SameLetters(s: string, t: string, body: Bytes)
    requires Base64.Unbroken(s) == Base64.Unbroken(t) && Base64.Spells(s, body)
    ensures Base64.Spells(t, body)
  {
  }

  /** A value sealed for one purpose and relabelled for another does not open, unless that was sealed too. */
  lemma RelabellingFails(
    vault: Vault, sealedFor: Purpose, wanted: Purpose, letters: string, body: Bytes)
    requires WellFiled(vault) && IsBody(body) && Base64.Spells(letters, body)
    requires sealedFor != wanted && (wanted, body) !in vault
    ensures Unseal(vault, wanted, Written(sealedFor, letters)) == Err(WrongPurpose)
    ensures Unseal(vault, wanted, Written(wanted, letters)) == Err(CorruptSealed)
  {
    SpellingParses(sealedFor, letters, body);
    SpellingParses(wanted, letters, body);
    hide ParseCredential, Base64.Decode, Base64.Spells, Written;
  }

  /** Whatever this server seals carries its marker, however it is spelt, so it is never taken for Google's token. */
  lemma WireIsMarked(purpose: Purpose, letters: string)
    ensures IsSealedCredential(Written(purpose, letters))
  {
    var w := Written(purpose, letters);
    var rest := w[3..];
    var tail := ":" + LabelOf(purpose) + "." + letters;
    assert w == "cdb" + ("1" + tail);
    assert rest == "1" + tail;
    FindAt("1", tail, ':');
    assert rest[0] == '1';
  }
}
