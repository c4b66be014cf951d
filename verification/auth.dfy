/** Access-token claims (`create_access_token`): the caller's claims plus an
    `exp` claim. The JWT signing itself is library cryptography and is not
    part of this model; the model stops at the claim set handed to it. */
module Auth {
  import opened Common

  const AccessTokenExpireMinutes: int := 30
  const MicrosPerMinute: int := 60 * 1000000

  /** `timedelta(minutes=ACCESS_TOKEN_EXPIRE_MINUTES)`. */
  const DefaultLifetime: Duration := AccessTokenExpireMinutes * MicrosPerMinute

  /** A claim value: a string such as the subject, or a time such as `exp`. */
  datatype Claim = Text(text: string) | Time(at: Instant)

  type Claims = map<string, Claim>

  /** `if expires_delta:` is true for a present, non-zero `timedelta`; `None`
      and `timedelta(0)` are both falsy. */
  predicate DeltaTruthy(delta: Option<Duration>)
  {
    delta.Some? && delta.value != 0
  }

  /** The expiry instant: `now + delta` for a truthy delta, `now + 30 minutes`
      otherwise (including a zero delta). A token issued with no delta or a
      non-negative one never expires at or before its issue time. */
  function Expiry(now: Instant, delta: Option<Duration>): (expire: Instant)
    ensures DeltaTruthy(delta) ==> expire == now + delta.value
    ensures !DeltaTruthy(delta) ==> expire == now + DefaultLifetime
    ensures delta.None? || delta.value >= 0 ==> expire > now
  {
    if DeltaTruthy(delta) then now + delta.value else now + DefaultLifetime
  }

  /** `create_access_token` up to the signing step: a copy of `data` with
      `exp` set (an `exp` already in `data` is overwritten). */
  function CreateAccessToken(data: Claims, now: Instant, delta: Option<Duration>): (claims: Claims)
    ensures claims.Keys == data.Keys + {"exp"}
    ensures claims["exp"] == Time(Expiry(now, delta))
    ensures forall k :: k in data && k != "exp" ==> claims[k] == data[k]
  {
    data["exp" := Time(Expiry(now, delta))]
  }

  /** `login_for_access_token` passes `timedelta(minutes=30)` explicitly, which
      agrees with the fallback: every login token carries its subject and
      expires thirty minutes after it was issued. */
  lemma LoginTokenExpiresAfterDefault(username: string, now: Instant)
    ensures CreateAccessToken(map["sub" := Text(username)], now, Some(DefaultLifetime))
         == map["sub" := Text(username), "exp" := Time(now + DefaultLifetime)]
    ensures Expiry(now, Some(DefaultLifetime)) == Expiry(now, None) == Expiry(now, Some(0))
  {
  }
}
