/** types.go: the issued credential pair and its expiry arithmetic. */
module TokenTypes {
  import opened Basics

  // Instants and durations are nanoseconds; instant 0 is Go's zero time.
  const SECOND := 1_000_000_000
  const ZERO_TIME := 0
  const REFRESH_MARGIN := 30 * SECOND

  datatype Tokens = Tokens(
    access: string,
    refresh: string,
    kind: string,
    expiresIn: int,
    session: string,
    issuedAt: int)

  const EMPTY := Tokens("", "", "", 0, "", ZERO_TIME)

  /** time.Duration is an int64, so the product wraps. */
  function Lifetime(t: Tokens): int {
    Int64(t.expiresIn * SECOND)
  }

  function Expiry(t: Tokens): int {
    if t.issuedAt == ZERO_TIME || t.expiresIn == 0 then ZERO_TIME else t.issuedAt + Lifetime(t)
  }

  predicate IsValid(t: Tokens, now: int) {
    t.access != "" && (Expiry(t) == ZERO_TIME || now + REFRESH_MARGIN < Expiry(t))
  }

  /** The lifetime fits a time.Duration: some 292 years. */
  predicate InRange(t: Tokens) {
    -TWO_63 <= t.expiresIn * SECOND < TWO_63
  }

  /** More than thirty seconds from its expiry, or with none: no issue time, no lifetime, or an expiry that is itself
      Go's zero time. */
  predicate FarFromExpiry(t: Tokens, now: int) {
    var end := t.issuedAt + t.expiresIn * SECOND;
    t.access != "" && (t.issuedAt == ZERO_TIME || t.expiresIn == 0 || end == ZERO_TIME || now + 30 * SECOND < end)
  }
}
