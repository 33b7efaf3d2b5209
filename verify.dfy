/**
 * Capability tokens for the two actions a link can authorise (src/verify.rs): creating an
 * account for an e-mail address, and resetting the password of an account before an expiry
 * instant.  A token is the HMAC-SHA3-256, under the process-wide key, of the action's payload.
 */
module Verify {
  import opened Foreign
  import opened Users
  import Decimal

  const SECRET_KEY: string := "my super secret key"

  /** How long a reset link lives: `chrono::Duration::hours(3)`, in nanoseconds. */
  const RESET_LIFETIME: int := 3 * 60 * 60 * 1_000_000_000

  /** Query parameters of an account-creation link. */
  datatype CreateParams = CreateParams(email: string, token: Token)

  /** Query parameters of a password-reset link. */
  datatype ResetParams = ResetParams(userId: UserId, expires: Instant, token: Token)

  /**
   * `CreateParams::from`: the link parameters that authorise creating an account for `email`.
   * The token is the finished `accum_mac`, the MAC over the address alone.
   */
  function CreateFrom(lib: Primitives, email: string): (p: CreateParams)
    ensures p.email == email
    ensures p.token == lib.mac(SECRET_KEY, email)
  {
    CreateParams(email, lib.mac(SECRET_KEY, email))
  }

  /** `CreateParams::verify`: the token is the MAC the service issues for `email`. */
  function CreateVerify(lib: Primitives, email: string, params: CreateParams): (ok: bool)
    ensures ok <==> params.token == CreateFrom(lib, email).token
  {
    lib.mac(SECRET_KEY, email) == params.token
  }

  /**
   * The message `ResetParams::accum_mac` feeds the MAC: the decimal id, then the expiry's
   * text, with nothing between them.
   */
  function ResetMacInput(lib: Primitives, id: UserId, expires: Instant): (m: string)
    ensures |m| == |Decimal.ToString(id)| + |lib.expiryText(expires)|
    ensures m[..|Decimal.ToString(id)|] == Decimal.ToString(id)
    ensures m[|Decimal.ToString(id)|..] == lib.expiryText(expires)
  {
    Decimal.ToString(id) + lib.expiryText(expires)
  }

  /** `ResetParams::from`, with the clock reading passed in as `now`. */
  function ResetFrom(lib: Primitives, user: User, now: Instant): (p: ResetParams)
    ensures p.userId == user.id
    ensures p.expires == now + RESET_LIFETIME
    ensures p.token == lib.mac(SECRET_KEY, Decimal.ToString(user.id) + lib.expiryText(now + RESET_LIFETIME))
  {
    var expires := now + RESET_LIFETIME;
    ResetParams(user.id, expires, lib.mac(SECRET_KEY, ResetMacInput(lib, user.id, expires)))
  }

  /**
   * `ResetParams::verify`, with the clock reading passed in as `now`: reject once `now` is
   * strictly past the expiry, otherwise recompute the MAC from `user`'s own id.
   */
  function ResetVerify(lib: Primitives, user: User, params: ResetParams, now: Instant): (ok: bool)
    ensures now > params.expires ==> !ok
    ensures now <= params.expires ==>
              (ok <==> params.token == lib.mac(SECRET_KEY, ResetMacInput(lib, user.id, params.expires)))
  {
    if now > params.expires then false
    else lib.mac(SECRET_KEY, ResetMacInput(lib, user.id, params.expires)) == params.token
  }

  /** The MAC as an ideal primitive: under the service's key, different messages give different tags. */
  ghost predicate MacCollisionFree(lib: Primitives) {
    forall m1, m2 :: lib.mac(SECRET_KEY, m1) == lib.mac(SECRET_KEY, m2) ==> m1 == m2
  }

  /**
   * The shape chrono gives the text of an instant with a non-negative year: four digits of
   * year then '-' for the years 0 to 9999, and a leading '+' for later years.
   */
  predicate ExpiryShaped(s: string) {
    || (|s| > 4 && Decimal.AllDigits(s[..4]) && s[4] == '-')
    || (|s| > 0 && s[0] == '+')
  }

  /** How many digits an expiry text of that shape starts with before its first mark. */
  function LeadingDigits(s: string): (n: nat)
    requires ExpiryShaped(s)
    ensures n < |s| && (s[n] == '-' || s[n] == '+')
    ensures s[n] == '-' <==> n == 4
  {
    if s[0] == '+' then 0 else 4
  }

  /** A creation link verifies for the address it was issued for. */
  lemma CreateRoundTrip(lib: Primitives, email: string)
    ensures CreateVerify(lib, email, CreateFrom(lib, email))
  {
  }

  /** A creation token is bound to exactly one address (given an ideal MAC). */
  lemma CreateTokenBindsEmail(lib: Primitives, issued: string, candidate: string)
    requires MacCollisionFree(lib)
    ensures CreateVerify(lib, candidate, CreateFrom(lib, issued)) <==> candidate == issued
  {
  }

  /** A reset link verifies against its own account at every instant up to its expiry. */
  lemma ResetRoundTrip(lib: Primitives, user: User, issuedAt: Instant, checkedAt: Instant)
    requires checkedAt <= issuedAt + RESET_LIFETIME
    ensures ResetVerify(lib, user, ResetFrom(lib, user, issuedAt), checkedAt)
  {
  }

  /** The time check is strict: a link checked at exactly its expiry instant still passes it. */
  lemma ResetValidAtExpiryInstant(lib: Primitives, user: User, issuedAt: Instant)
    ensures ResetVerify(lib, user, ResetFrom(lib, user, issuedAt), issuedAt + RESET_LIFETIME)
  {
  }

  /** Once past its expiry, no reset link verifies, whatever its token. */
  lemma ResetExpiredRejected(lib: Primitives, user: User, params: ResetParams, now: Instant)
    requires now > params.expires
    ensures !ResetVerify(lib, user, params, now)
  {
  }

  /** The id carried in the link plays no part in verification; only the account's own id does. */
  lemma ResetVerifyIgnoresLinkUserId(lib: Primitives, user: User, params: ResetParams, other: UserId, now: Instant)
    ensures ResetVerify(lib, user, params.(userId := other), now) == ResetVerify(lib, user, params, now)
  {
  }

  /**
   * Although nothing separates the id from the expiry text, the MAC message determines both
   * parts when the expiry text has chrono's shape: the message's first non-digit is the
   * expiry's first '-' or '+', and which of the two it is says how many year digits precede it.
   */
  lemma ResetInputUnambiguous(a: UserId, b: UserId, s: string, t: string)
    requires ExpiryShaped(s) && ExpiryShaped(t)
    requires Decimal.ToString(a) + s == Decimal.ToString(b) + t
    ensures a == b && s == t
  {
    var da, db := Decimal.ToString(a), Decimal.ToString(b);
    var ra, rb := LeadingDigits(s), LeadingDigits(t);
    var m := da + s;
    if |da| + ra < |db| + rb {
      ShapedDigitRun(da, s, |da| + ra);
      ShapedDigitRun(db, t, |da| + ra);
    } else if |db| + rb < |da| + ra {
      ShapedDigitRun(db, t, |db| + rb);
      ShapedDigitRun(da, s, |db| + rb);
    }
    assert m[|da| + ra] == s[ra] && m[|db| + rb] == t[rb];
    assert da == m[..|da|] && db == m[..|db|];
    Decimal.ToStringInjective(a, b);
    assert s == m[|da|..] && t == m[|db|..];
  }

  /** In digits followed by a shaped expiry text, the digit run ends at the text's first mark. */
  lemma ShapedDigitRun(digits: string, s: string, k: nat)
    requires Decimal.AllDigits(digits) && ExpiryShaped(s)
    requires k <= |digits| + LeadingDigits(s)
    ensures Decimal.IsDigit((digits + s)[k]) <==> k < |digits| + LeadingDigits(s)
  {
    if |digits| <= k < |digits| + LeadingDigits(s) {
      assert (digits + s)[k] == s[..4][k - |digits|];
    }
  }

  /**
   * No cross-account substitution: a token issued for account `a` verifies against account
   * `b` only if `b` has `a`'s id and the link's expiry prints as the issued one
   * (given an ideal MAC and chrono's text shape).
   */
  lemma ResetTokenBindsAccount(lib: Primitives, a: User, b: User, issuedAt: Instant,
                               params: ResetParams, now: Instant)
    requires MacCollisionFree(lib)
    requires ExpiryShaped(lib.expiryText(issuedAt + RESET_LIFETIME))
    requires ExpiryShaped(lib.expiryText(params.expires))
    requires params.token == ResetFrom(lib, a, issuedAt).token
    requires ResetVerify(lib, b, params, now)
    ensures b.id == a.id
    ensures lib.expiryText(params.expires) == lib.expiryText(issuedAt + RESET_LIFETIME)
  {
    ResetInputUnambiguous(b.id, a.id, lib.expiryText(params.expires),
                          lib.expiryText(issuedAt + RESET_LIFETIME));
  }
}
