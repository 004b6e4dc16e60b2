/** Authentication primitives (app/core/security.py): the password
    complexity rules, the claim sets of access tokens, token verification and
    the in-process revocation set.

    The collaborators the module calls but does not implement are parameters:
    bcrypt hashing is a function `hash`, JSON Web Token signing and checking
    (RFC 7519, HS256) are the functions `encode` and `decode`, and the random
    strings of `secrets.token_urlsafe` are passed in as values.  Time is an
    integer count of seconds, which is the unit the token's `exp` claim holds. */
module Security {
  import opened Common
  import Config

  // ---------------------------------------------------------------------
  // Password complexity
  // ---------------------------------------------------------------------

  const MIN_PASSWORD_LENGTH: nat := 8

  /** The punctuation class `[!@#$%^&*(),.?":{}|<>]` of the source's regex. */
  const SPECIAL_CHARACTERS: string := "!@#$%^&*(),.?\":{}|<>"

  /** The five rules, in the order the validator checks them. */
  datatype Rule = MinLength | Uppercase | Lowercase | Digit | Special

  const RULE_ORDER: seq<Rule> := [MinLength, Uppercase, Lowercase, Digit, Special]

  predicate IsAsciiUpper(c: char) { 'A' <= c <= 'Z' }
  predicate IsAsciiLower(c: char) { 'a' <= c <= 'z' }
  predicate IsAsciiDigit(c: char) { '0' <= c <= '9' }
  predicate IsSpecial(c: char) { c in SPECIAL_CHARACTERS }

  /** `re.search(r"[A-Z]", password)` and its siblings. */
  predicate HasUpper(p: string) { exists i :: 0 <= i < |p| && IsAsciiUpper(p[i]) }
  predicate HasLower(p: string) { exists i :: 0 <= i < |p| && IsAsciiLower(p[i]) }
  predicate HasDigit(p: string) { exists i :: 0 <= i < |p| && IsAsciiDigit(p[i]) }
  predicate HasSpecial(p: string) { exists i :: 0 <= i < |p| && IsSpecial(p[i]) }

  predicate Satisfies(p: string, rule: Rule) {
    match rule
    case MinLength => |p| >= MIN_PASSWORD_LENGTH
    case Uppercase => HasUpper(p)
    case Lowercase => HasLower(p)
    case Digit => HasDigit(p)
    case Special => HasSpecial(p)
  }

  function Message(rule: Rule): string {
    match rule
    case MinLength => "Password must be at least 8 characters long."
    case Uppercase => "Password must contain at least one uppercase letter."
    case Lowercase => "Password must contain at least one lowercase letter."
    case Digit => "Password must contain at least one digit."
    case Special => "Password must contain at least one special character."
  }

  /** A password the validator accepts. */
  predicate StrongPassword(p: string) {
    |p| >= MIN_PASSWORD_LENGTH && HasUpper(p) && HasLower(p) && HasDigit(p) && HasSpecial(p)
  }

  /** `validate_password_complexity`: True, or the ValueError of the first
      rule that fails. */
  function ValidatePasswordComplexity(password: string): (r: Result<bool>)
    ensures r.Ok? <==> StrongPassword(password)
    ensures r.Ok? ==> r.value
    ensures r.Err? ==> exists rule :: r.error == ValueError(Message(rule)) && !Satisfies(password, rule)
    ensures |password| < MIN_PASSWORD_LENGTH ==> r == Err(ValueError(Message(MinLength)))
  {
    if |password| < MIN_PASSWORD_LENGTH then Err(ValueError(Message(MinLength)))
    else if !HasUpper(password) then Err(ValueError(Message(Uppercase)))
    else if !HasLower(password) then Err(ValueError(Message(Lowercase)))
    else if !HasDigit(password) then Err(ValueError(Message(Digit)))
    else if !HasSpecial(password) then Err(ValueError(Message(Special)))
    else Ok(true)
  }

  /** Reference reading of the chain: the first rule of `rules` that `p` breaks. */
  function FirstBroken(p: string, rules: seq<Rule>): (r: Option<nat>)
    ensures r.Some? ==> r.value < |rules| && !Satisfies(p, rules[r.value])
    ensures r.Some? ==> forall j :: 0 <= j < r.value ==> Satisfies(p, rules[j])
    ensures r.None? ==> forall j :: 0 <= j < |rules| ==> Satisfies(p, rules[j])
  {
    if |rules| == 0 then None
    else if !Satisfies(p, rules[0]) then Some(0)
    else match FirstBroken(p, rules[1..])
      case None => None
      case Some(k) => Some(k + 1)
  }

  /** Only the message of the first broken rule, in the fixed order length,
      uppercase, lowercase, digit, special character, is reported. */
  lemma ValidateReportsFirstBrokenRule(p: string)
    ensures FirstBroken(p, RULE_ORDER).None? ==> ValidatePasswordComplexity(p) == Ok(true)
    ensures FirstBroken(p, RULE_ORDER).Some? ==>
      ValidatePasswordComplexity(p) == Err(ValueError(Message(RULE_ORDER[FirstBroken(p, RULE_ORDER).value])))
  {
    var r := FirstBroken(p, RULE_ORDER);
    if r.Some? {
      var k := r.value;
      assert !Satisfies(p, RULE_ORDER[k]);
      assert forall j :: 0 <= j < k ==> Satisfies(p, RULE_ORDER[j]);
      if k == 0 {
      } else if k == 1 {
        assert Satisfies(p, RULE_ORDER[0]);
      } else if k == 2 {
        assert Satisfies(p, RULE_ORDER[0]) && Satisfies(p, RULE_ORDER[1]);
      } else if k == 3 {
        assert Satisfies(p, RULE_ORDER[0]) && Satisfies(p, RULE_ORDER[1]) && Satisfies(p, RULE_ORDER[2]);
      } else {
        assert Satisfies(p, RULE_ORDER[0]) && Satisfies(p, RULE_ORDER[1]) && Satisfies(p, RULE_ORDER[2]);
        assert Satisfies(p, RULE_ORDER[3]);
      }
    } else {
      assert forall j :: 0 <= j < 5 ==> Satisfies(p, RULE_ORDER[j]);
      assert Satisfies(p, RULE_ORDER[0]) && Satisfies(p, RULE_ORDER[1]) && Satisfies(p, RULE_ORDER[2]);
      assert Satisfies(p, RULE_ORDER[3]) && Satisfies(p, RULE_ORDER[4]);
    }
  }

  /** A 7-character password fails on length before anything else. */
  lemma ShortPasswordExample()
    ensures ValidatePasswordComplexity("short1!") == Err(ValueError(Message(MinLength)))
  {
  }

  /** A long password without an uppercase letter fails on that rule. */
  lemma NoUppercaseExample()
    ensures ValidatePasswordComplexity("longenough1") == Err(ValueError(Message(Uppercase)))
  {
    var weak := "longenough1";
    assert forall i :: 0 <= i < |weak| ==> !IsAsciiUpper(weak[i]);
  }

  /** A password meeting all five rules passes. */
  lemma StrongPasswordExample()
    ensures ValidatePasswordComplexity("LongEnough1!") == Ok(true)
  {
    var strong := "LongEnough1!";
    assert IsAsciiUpper(strong[0]) && IsAsciiLower(strong[1]);
    assert IsAsciiDigit(strong[10]) && IsSpecial(strong[11]);
  }

  // ---------------------------------------------------------------------
  // Claims and tokens
  // ---------------------------------------------------------------------

  /** A JSON value of a token payload. */
  datatype ClaimValue = Text(text: string) | Number(number: int) | Flag(flag: bool)

  type Claims = map<string, ClaimValue>

  const EXP: string := "exp"
  const JTI: string := "jti"

  /** The default lifetime, `ACCESS_TOKEN_EXPIRE_MINUTES` in seconds. */
  const DEFAULT_LIFETIME: int := Config.ACCESS_TOKEN_EXPIRE_MINUTES * 60

  /** `if expires_delta:` -- a missing or zero `timedelta` is falsy and falls
      back to the default; every other delta, negative ones too, is used. */
  function Lifetime(expiresDelta: Option<int>): (seconds: int)
    ensures expiresDelta == None || expiresDelta == Some(0) ==> seconds == DEFAULT_LIFETIME
    ensures expiresDelta.Some? && expiresDelta.value != 0 ==> seconds == expiresDelta.value
  {
    if expiresDelta.Some? && expiresDelta.value != 0 then expiresDelta.value else DEFAULT_LIFETIME
  }

  /** The payload `create_access_token` signs: a copy of `data` with `exp`
      set (the caller's dictionary is not touched: values are immutable). */
  function AccessClaims(data: Claims, expiresDelta: Option<int>, now: int): (c: Claims)
    ensures c.Keys == data.Keys + {EXP}
    ensures c[EXP] == Number(now + Lifetime(expiresDelta))
    ensures forall k :: k in data && k != EXP ==> c[k] == data[k]
  {
    data[EXP := Number(now + Lifetime(expiresDelta))]
  }

  /** `create_access_token`: the signed payload. */
  function CreateAccessToken(encode: Claims -> string, data: Claims, expiresDelta: Option<int>, now: int): (token: string)
    ensures exists c :: token == encode(c) && c == AccessClaims(data, expiresDelta, now)
  {
    encode(AccessClaims(data, expiresDelta, now))
  }

  /** The payload of the access token of `create_tokens`: the user data with a
      fresh `jti` (overriding any `jti` already there) and the default lifetime. */
  function TokenClaims(userData: Claims, jti: string, now: int): (c: Claims)
    ensures c.Keys == userData.Keys + {JTI, EXP}
    ensures c[JTI] == Text(jti)
    ensures c[EXP] == Number(now + DEFAULT_LIFETIME)
    ensures forall k :: k in userData && k != JTI && k != EXP ==> c[k] == userData[k]
  {
    AccessClaims(userData[JTI := Text(jti)], Some(DEFAULT_LIFETIME), now)
  }

  /** `create_tokens`: `jti` and `refresh` are the two random strings drawn
      from `secrets.token_urlsafe`, the first for the access token's id and the
      second, unrelated to it, as the refresh token. */
  function CreateTokens(encode: Claims -> string, userData: Claims, jti: string, refresh: string, now: int)
    : (pair: (string, string))
    ensures pair.0 == encode(TokenClaims(userData, jti, now))
    ensures pair.1 == refresh
  {
    (CreateAccessToken(encode, userData[JTI := Text(jti)], Some(DEFAULT_LIFETIME), now), refresh)
  }

  /** The access token does not depend on the refresh token and the refresh
      token does not depend on anything but its own random draw. */
  lemma TokensAreIndependent(encode: Claims -> string, u1: Claims, u2: Claims, jti: string,
                             r1: string, r2: string, now: int)
    ensures CreateTokens(encode, u1, jti, r1, now).0 == CreateTokens(encode, u1, jti, r2, now).0
    ensures CreateTokens(encode, u1, jti, r1, now).1 == CreateTokens(encode, u2, jti, r1, now).1
  {
  }

  /** The identifier `verify_token` looks up: `payload.get("jti", "")`.  A
      `jti` that is not a string can never be in the set of revoked strings. */
  function JtiOf(payload: Claims): Option<string> {
    if JTI !in payload then Some("")
    else if payload[JTI].Text? then Some(payload[JTI].text)
    else None
  }

  predicate IsRevoked(revoked: set<string>, payload: Claims) {
    JtiOf(payload).Some? && JtiOf(payload).value in revoked
  }

  const INVALID_TOKEN: Error := InvalidCredentials("Invalid token")
  const REVOKED_TOKEN: Error := TokenExpired("Token has been revoked")

  /** `verify_token` against the revocation set `revoked`.  `decode` is the
      JWT library's check at time `now`; None is its `JWTError`.  The revoked
      error is raised inside the `try` but is not a `JWTError`, so it escapes
      unchanged. */
  function VerifyToken(decode: (string, int) -> Option<Claims>, revoked: set<string>, token: string, now: int)
    : (r: Result<Claims>)
    ensures decode(token, now).None? ==> r == Err(INVALID_TOKEN)
    ensures decode(token, now).Some? && IsRevoked(revoked, decode(token, now).value) ==> r == Err(REVOKED_TOKEN)
    ensures r.Ok? <==> decode(token, now).Some? && !IsRevoked(revoked, decode(token, now).value)
    ensures r.Ok? ==> r.value == decode(token, now).value
  {
    match decode(token, now)
    case None => Err(INVALID_TOKEN)
    case Some(payload) =>
      if IsRevoked(revoked, payload) then Err(REVOKED_TOKEN) else Ok(payload)
  }

  /** An undecodable token is rejected before the revocation set is read:
      its outcome is the same whatever the set holds. */
  lemma UndecodableNeverConsultsRevocations(decode: (string, int) -> Option<Claims>,
                                            r1: set<string>, r2: set<string>, token: string, now: int)
    requires decode(token, now).None?
    ensures VerifyToken(decode, r1, token, now) == VerifyToken(decode, r2, token, now) == Err(INVALID_TOKEN)
  {
  }

  /** A payload without `jti` is looked up as the empty string. */
  lemma MissingJtiIsEmptyString(decode: (string, int) -> Option<Claims>, revoked: set<string>, token: string, now: int)
    requires decode(token, now).Some? && JTI !in decode(token, now).value
    ensures VerifyToken(decode, revoked, token, now).Ok? <==> "" !in revoked
  {
  }

  /** Revoking more identifiers never lets a token through that was rejected. */
  lemma RevocationIsMonotone(decode: (string, int) -> Option<Claims>, smaller: set<string>, larger: set<string>,
                             token: string, now: int)
    requires smaller <= larger
    ensures VerifyToken(decode, larger, token, now).Ok? ==> VerifyToken(decode, smaller, token, now).Ok?
  {
  }

  /** What the JWT library is relied on to do: a token it signed decodes to
      its claims until the `exp` second has passed (`exp < now` is expired). */
  ghost predicate SoundCodec(encode: Claims -> string, decode: (string, int) -> Option<Claims>) {
    forall c: Claims, now: int {:trigger decode(encode(c), now)} ::
      decode(encode(c), now) == if Expired(c, now) then None else Some(c)
  }

  predicate Expired(c: Claims, now: int) {
    EXP in c && c[EXP].Number? && c[EXP].number < now
  }

  /** A fresh access token verifies to exactly the claims it was built from,
      or is reported revoked when its `jti` is in the set. */
  lemma FreshTokenVerifies(encode: Claims -> string, decode: (string, int) -> Option<Claims>,
                           revoked: set<string>, userData: Claims, jti: string, refresh: string, now: int)
    requires SoundCodec(encode, decode)
    ensures jti !in revoked ==>
      VerifyToken(decode, revoked, CreateTokens(encode, userData, jti, refresh, now).0, now)
        == Ok(TokenClaims(userData, jti, now))
    ensures jti in revoked ==>
      VerifyToken(decode, revoked, CreateTokens(encode, userData, jti, refresh, now).0, now) == Err(REVOKED_TOKEN)
  {
    var c := TokenClaims(userData, jti, now);
    assert decode(encode(c), now) == Some(c);
    assert JtiOf(c) == Some(jti);
  }

  /** One second after its default lifetime the token is rejected as invalid. */
  lemma TokenExpiresAfterLifetime(encode: Claims -> string, decode: (string, int) -> Option<Claims>,
                                  revoked: set<string>, userData: Claims, jti: string, refresh: string, now: int)
    requires SoundCodec(encode, decode)
    ensures VerifyToken(decode, revoked, CreateTokens(encode, userData, jti, refresh, now).0,
                        now + DEFAULT_LIFETIME) != Err(INVALID_TOKEN)
    ensures VerifyToken(decode, revoked, CreateTokens(encode, userData, jti, refresh, now).0,
                        now + DEFAULT_LIFETIME + 1) == Err(INVALID_TOKEN)
  {
    var c := TokenClaims(userData, jti, now);
    assert decode(encode(c), now + DEFAULT_LIFETIME) == Some(c);
    assert decode(encode(c), now + DEFAULT_LIFETIME + 1) == None;
  }

  // ---------------------------------------------------------------------
  // The revocation set
  // ---------------------------------------------------------------------

  /** `TokenBlacklist`: a set of revoked token ids that only grows. */
  class TokenBlacklist {
    var blacklist: set<string>

    constructor ()
      ensures blacklist == {}
    {
      blacklist := {};
    }

    /** Adds `jti`; the expiry is accepted and ignored. */
    method AddToBlacklist(jti: string, exp: int)
      modifies this
      ensures blacklist == old(blacklist) + {jti}
      ensures jti in blacklist && old(blacklist) <= blacklist
    {
      blacklist := blacklist + {jti};
    }

    method IsBlacklisted(jti: string) returns (b: bool)
      ensures b <==> jti in blacklist
    {
      b := jti in blacklist;
    }
  }

  /** The set after a series of `add_to_blacklist` calls. */
  function AfterAdds(s: set<string>, jtis: seq<string>): set<string>
    decreases |jtis|
  {
    if |jtis| == 0 then s else AfterAdds(s + {jtis[0]}, jtis[1..])
  }

  /** Adds are idempotent and nothing is ever taken out again: an id stays
      revoked through any later series of adds, and the set is exactly the old
      one plus the ids added. */
  lemma {:induction false} RevocationIsPermanent(s: set<string>, jtis: seq<string>)
    ensures AfterAdds(s, jtis) == s + set j | j in jtis
    ensures s <= AfterAdds(s, jtis)
    decreases |jtis|
  {
    if |jtis| > 0 {
      RevocationIsPermanent(s + {jtis[0]}, jtis[1..]);
      assert (set j | j in jtis) == {jtis[0]} + set j | j in jtis[1..];
    }
  }

  /** Logging out with an access token: once its id is added, verifying it
      fails with the revoked error for as long as it still decodes. */
  method RevokeExample(encode: Claims -> string, decode: (string, int) -> Option<Claims>,
                       bl: TokenBlacklist, userData: Claims, jti: string, refresh: string, now: int)
    returns (before: Result<Claims>, after: Result<Claims>)
    requires SoundCodec(encode, decode)
    requires jti !in bl.blacklist
    modifies bl
    ensures before == Ok(TokenClaims(userData, jti, now))
    ensures after == Err(REVOKED_TOKEN)
  {
    var (access, _) := CreateTokens(encode, userData, jti, refresh, now);
    FreshTokenVerifies(encode, decode, bl.blacklist, userData, jti, refresh, now);
    before := VerifyToken(decode, bl.blacklist, access, now);
    bl.AddToBlacklist(jti, now + DEFAULT_LIFETIME);
    FreshTokenVerifies(encode, decode, bl.blacklist, userData, jti, refresh, now);
    after := VerifyToken(decode, bl.blacklist, access, now);
  }
}
