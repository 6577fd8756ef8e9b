/** The life of a ticket that was minted with user name and password; times are in nanoseconds. */
module Tickets {
  import opened Options

  const SKEW: int := 5 * 60 * 1_000_000_000
  const LIFETIME: int := 2 * 60 * 60 * 1_000_000_000

  /** A ticket is needed before the first request, and again within the skew of its expiry. */
  predicate Stale(expiry: Option<int>, now: int) { expiry.None? || now + SKEW > expiry.value }
}
