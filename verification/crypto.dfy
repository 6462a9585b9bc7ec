/**
 * The pure parts of the crypto utilities: code expiry and the shape of
 * generated email codes. Hashing and the random source are parameters.
 */
module Crypto {
  import opened Text

  /** Bounds handed to the random source: `randomInt(min, max)` excludes `max`. */
  const CodeRandomMin: int := 100000
  const CodeRandomMaxExclusive: int := 999999

  /** `isEmailCodeExpired`: strictly after the expiry instant (milliseconds). */
  predicate IsEmailCodeExpired(expiresAt: int, now: int)
  {
    now > expiresAt
  }

  /** A code is still valid at its exact expiry instant. */
  lemma NotExpiredAtExpiryInstant(expiresAt: int)
    ensures !IsEmailCodeExpired(expiresAt, expiresAt)
    ensures IsEmailCodeExpired(expiresAt, expiresAt + 1)
  {
  }

  /** Once expired, a code stays expired as time moves on. */
  lemma ExpiryIsMonotone(expiresAt: int, t1: int, t2: int)
    requires t1 <= t2 && IsEmailCodeExpired(expiresAt, t1)
    ensures IsEmailCodeExpired(expiresAt, t2)
  {
  }

  /**
   * `generateEmailCode` for the value `random` drawn by the random source:
   * its decimal string, six digits with no leading zero, naming `random`.
   */
  function GenerateEmailCode(random: int): (code: string)
    requires CodeRandomMin <= random < CodeRandomMaxExclusive
    ensures |code| == 6 && AllDigits(code) && code[0] != '0'
    ensures ParseDecimal(code) == random
  {
    assert Pow10(5) == 100000 && Pow10(6) == 1000000;
    NatToStringLength(random, 6);
    ParseNatToString(random);
    NatToString(random)
  }

  /** "999999" reads back as 999999, the bound `randomInt` excludes (a helper for the next lemma). */
  lemma ParseAllNines()
    ensures ParseDecimal("999999") == 999999
  {
    assert "9"[..0] == "" && "99"[..1] == "9" && "999"[..2] == "99";
    assert "9999"[..3] == "999" && "99999"[..4] == "9999" && "999999"[..5] == "99999";
  }

  /** The exclusive upper bound means "999999" is never issued. */
  lemma NeverIssuesAllNines(random: int)
    requires CodeRandomMin <= random < CodeRandomMaxExclusive
    ensures GenerateEmailCode(random) != "999999"
  {
    ParseAllNines();
  }
}
