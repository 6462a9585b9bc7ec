/**
 * Timing-safe comparison: a comparison is always performed, against a
 * dummy value when the user is missing or has no stored secret, and the
 * string comparison itself has no early exit once the lengths match.
 * The work done is recorded in ghost outputs; wall-clock time is not modelled.
 */
module TimingSafe {
  import opened Base
  import opened Users
  import opened UserValidator

  /** Stand-in bcrypt hash compared when there is no real one. */
  const DummyHash: string := "$2b$12$dummyhashtopreventtimingattacksagainstnonexistentusers"

  /** Stand-in email code compared when there is no real one. */
  const DummyCode: string := "000000"

  /** The indices 0, 1, ..., n - 1 in order. */
  function Indices(n: nat): (s: seq<int>)
    ensures |s| == n && forall k :: 0 <= k < n ==> s[k] == k
  {
    seq(n, k => k)
  }

  /** Bitwise XOR of two non-negative integers (`^` on code units). */
  function Xor(x: nat, y: nat): nat
    decreases x + y
  {
    if x == 0 && y == 0 then 0
    else 2 * Xor(x / 2, y / 2) + (if x % 2 != y % 2 then 1 else 0)
  }

  /** Bitwise OR of two non-negative integers (`|=` on the accumulator). */
  function Or(x: nat, y: nat): nat
    decreases x + y
  {
    if x == 0 && y == 0 then 0
    else 2 * Or(x / 2, y / 2) + (if x % 2 == 1 || y % 2 == 1 then 1 else 0)
  }

  /** The XOR of two code units is zero exactly when they are equal. */
  lemma {:induction false} XorZeroIffEqual(x: nat, y: nat)
    ensures Xor(x, y) == 0 <==> x == y
    decreases x + y
  {
    if !(x == 0 && y == 0) {
      XorZeroIffEqual(x / 2, y / 2);
    }
  }

  /** An OR is zero exactly when both operands are. */
  lemma {:induction false} OrZeroIffBothZero(x: nat, y: nat)
    ensures Or(x, y) == 0 <==> x == 0 && y == 0
    decreases x + y
  {
    if !(x == 0 && y == 0) {
      OrZeroIffBothZero(x / 2, y / 2);
    }
  }

  /**
   * `constantTimeStringCompare`: unequal lengths answer false at once;
   * otherwise every position is visited, OR-ing the XOR of the code units,
   * and the strings are equal iff the accumulator ends at zero.
   */
  method ConstantTimeStringCompare(a: string, b: string)
    returns (equal: bool, ghost visited: seq<int>)
    ensures equal <==> a == b
    ensures |a| == |b| ==> visited == Indices(|a|)
    ensures |a| != |b| ==> visited == []
  {
    visited := [];
    if |a| != |b| {
      return false, visited;
    }
    var acc: nat := 0;
    var i := 0;
    while i < |a|
      invariant 0 <= i <= |a|
      invariant visited == Indices(i)
      invariant acc == 0 <==> a[..i] == b[..i]
    {
      XorZeroIffEqual(a[i] as int, b[i] as int);
      OrZeroIffBothZero(acc, Xor(a[i] as int, b[i] as int));
      assert a[..i + 1] == a[..i] + [a[i]] && b[..i + 1] == b[..i] + [b[i]];
      acc := Or(acc, Xor(a[i] as int, b[i] as int));
      visited := visited + [i];
      i := i + 1;
    }
    assert a[..i] == a && b[..i] == b;
    equal := acc == 0;
  }

  /** The outcome of a password check and the hash it was checked against. */
  datatype HashCheck = HashCheck(valid: bool, comparedHash: string)

  /**
   * `safeComparePassword`: the hash comparison `compare` (bcrypt in the
   * source) always runs, on the user's hash when the user exists and has one,
   * on `DummyHash` otherwise; the answer is false for a missing user.
   */
  function SafeComparePassword(
    password: string,
    userHash: Option<string>,
    userExists: bool,
    compare: (string, string) -> bool
  ): (r: HashCheck)
    ensures !userExists ==> !r.valid && r.comparedHash == DummyHash
    ensures userExists && Truthy(userHash) ==>
              r.comparedHash == userHash.value && (r.valid <==> compare(password, userHash.value))
    ensures userExists && !Truthy(userHash) ==>
              r.comparedHash == DummyHash && (r.valid <==> compare(password, DummyHash))
  {
    var hashToCompare := if userExists && Truthy(userHash) then userHash.value else DummyHash;
    var isValidPassword := compare(password, hashToCompare);
    HashCheck(userExists && isValidPassword, hashToCompare)
  }

  /**
   * The decision `safeCompareEmailCode` makes, as written: compare against
   * the stored code when the user exists and has one, against `DummyCode`
   * otherwise, and refuse a missing user.
   */
  function EmailCodeAccepted(inputCode: string, storedCode: Option<string>, userExists: bool): (accepted: bool)
    ensures accepted ==> userExists
    ensures userExists && Truthy(storedCode) ==> (accepted <==> inputCode == storedCode.value)
  {
    var codeToCompare := if userExists && Truthy(storedCode) then storedCode.value else DummyCode;
    userExists && inputCode == codeToCompare
  }

  /**
   * `safeCompareEmailCode`: the constant-time comparison always runs, against
   * the stored code when the user exists and has one, against `DummyCode`
   * otherwise; the answer is false for a missing user. No presence check
   * masks the dummy, so an existing user without a code accepts "000000".
   */
  method SafeCompareEmailCode(inputCode: string, storedCode: Option<string>, userExists: bool)
    returns (valid: bool, ghost comparedCode: string, ghost visited: seq<int>)
    ensures valid == EmailCodeAccepted(inputCode, storedCode, userExists)
    ensures !userExists ==> !valid && comparedCode == DummyCode
    ensures userExists && Truthy(storedCode) ==>
              comparedCode == storedCode.value && (valid <==> inputCode == storedCode.value)
    ensures userExists && !Truthy(storedCode) ==>
              comparedCode == DummyCode && (valid <==> inputCode == DummyCode)
    ensures |inputCode| == |comparedCode| ==> visited == Indices(|inputCode|)
  {
    var codeToCompare := if userExists && Truthy(storedCode) then storedCode.value else DummyCode;
    var isValidCode;
    isValidCode, visited := ConstantTimeStringCompare(inputCode, codeToCompare);
    comparedCode := codeToCompare;
    valid := userExists && isValidCode;
  }

  /** As written, an existing user with no stored code is let in by the dummy code. */
  lemma MissingCodeAcceptsDummy(storedCode: Option<string>)
    requires !Truthy(storedCode)
    ensures EmailCodeAccepted(DummyCode, storedCode, true)
    ensures !EmailCodeAccepted(DummyCode, Some("123456"), true)
  {
  }

  /** The intended decision: only a stored code can be matched. */
  function IntendedEmailCodeAccepted(inputCode: string, storedCode: Option<string>, userExists: bool): (accepted: bool)
    ensures accepted <==> userExists && Truthy(storedCode) && inputCode == storedCode.value
  {
    userExists && Truthy(storedCode) && inputCode == storedCode.value
  }

  /**
   * `safeCompareEmailCode` with the presence of the stored code required for
   * success; the dummy comparison still runs, so the work done is unchanged.
   */
  method SafeCompareEmailCodeCorrected(inputCode: string, storedCode: Option<string>, userExists: bool)
    returns (valid: bool, ghost visited: seq<int>)
    ensures valid <==> userExists && Truthy(storedCode) && inputCode == storedCode.value
    ensures !Truthy(storedCode) || !userExists ==> !valid
    ensures |inputCode| == |if userExists && Truthy(storedCode) then storedCode.value else DummyCode| ==>
              visited == Indices(|inputCode|)
  {
    var codeToCompare := if userExists && Truthy(storedCode) then storedCode.value else DummyCode;
    var isValidCode;
    isValidCode, visited := ConstantTimeStringCompare(inputCode, codeToCompare);
    valid := userExists && Truthy(storedCode) && isValidCode;
  }

  /**
   * The corrected decision differs from the written one only for an existing
   * user without a code, and there it agrees with the strategy's own code
   * check, which refuses such a user.
   */
  lemma CorrectedAgreesWithCodeCheck(inputCode: string, storedCode: Option<string>, userExists: bool, u: User)
    requires u.emailCode == storedCode && u.emailCodeExpiresAt.Some?
    ensures Truthy(storedCode) || !userExists ==>
              IntendedEmailCodeAccepted(inputCode, storedCode, userExists) == EmailCodeAccepted(inputCode, storedCode, userExists)
    ensures userExists ==>
              (IntendedEmailCodeAccepted(inputCode, storedCode, true) <==> ValidateEmailCode(u, inputCode).Pass?)
  {
  }
}
