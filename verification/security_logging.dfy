/**
 * The masking helpers of the two security loggers: email addresses keep
 * the ends of the local part and the domain, IPv4 addresses their first two
 * octets, IPv6 addresses their first two groups; and the validation log
 * keeps at most the first three messages.
 */
module SecurityLogging {
  import opened Text

  const FullEmailMask: string := "***@***.***"

  /**
   * `maskEmail`: the text before the first '@' and the text between the
   * first and the second '@' are the local part and the domain; without both,
   * the whole address is masked. A local part of more than two characters
   * keeps its first and last character.
   */
  function MaskEmail(email: string): (r: string)
    ensures '@' !in email ==> r == FullEmailMask
    ensures '@' in email ==>
              var parts := Split(email, '@');
              && |parts| >= 2
              && (parts[0] == "" || parts[1] == "" ==> r == FullEmailMask)
              && (parts[0] != "" && parts[1] != "" ==>
                    r == MaskLocal(parts[0]) + "@" + parts[1])
  {
    var parts := Split(email, '@');
    SplitLength(email, '@');
    if '@' !in email then FullEmailMask
    else
      CountPositive(email, '@');
      var local := parts[0];
      var domain := if |parts| >= 2 then parts[1] else "";
      if local == "" || domain == "" then FullEmailMask
      else MaskLocal(local) + "@" + domain
  }

  /** The local part as shown: its two ends around "***", or "***" alone. */
  function MaskLocal(local: string): (m: string)
    ensures |local| > 2 ==> |m| == 5 && m[0] == local[0] && m[4] == local[|local| - 1] && m[1..4] == "***"
    ensures |local| <= 2 ==> m == "***"
  {
    if |local| > 2 then [local[0]] + "***" + [local[|local| - 1]] else "***"
  }

  /**
   * The mask shows nothing of a local part but its ends: addresses at the
   * same domain whose local parts share first and last character, or are
   * both at most two characters long, look the same.
   */
  lemma MaskHidesLocalMiddle(l1: string, l2: string, domain: string)
    requires l1 != "" && l2 != "" && domain != ""
    requires '@' !in l1 && '@' !in l2 && '@' !in domain
    requires (|l1| > 2 && |l2| > 2 && l1[0] == l2[0] && l1[|l1| - 1] == l2[|l2| - 1]) || (|l1| <= 2 && |l2| <= 2)
    ensures MaskEmail(l1 + "@" + domain) == MaskEmail(l2 + "@" + domain)
    ensures MaskEmail(l1 + "@" + domain) == MaskLocal(l1) + "@" + domain
  {
    SplitCons(l1, '@', domain);
    SplitCons(l2, '@', domain);
    assert Split(domain, '@') == [domain];
    assert l1 + "@" + domain == l1 + ['@'] + domain;
    assert l2 + "@" + domain == l2 + ['@'] + domain;
  }

  /** Only the text up to a second '@' is shown as the domain. */
  lemma MaskDropsAfterSecondAt(local: string, domain: string, rest: string)
    requires local != "" && domain != ""
    requires '@' !in local && '@' !in domain
    ensures MaskEmail(local + "@" + domain + "@" + rest) == MaskLocal(local) + "@" + domain
  {
    var email := local + "@" + domain + "@" + rest;
    var tail := domain + ['@'] + rest;
    assert email == local + ['@'] + tail;
    assert email[|local|] == '@';
    SplitCons(local, '@', tail);
    SplitCons(domain, '@', rest);
    var parts := Split(email, '@');
    assert parts == [local] + ([domain] + Split(rest, '@'));
    assert parts[0] == local && parts[1] == domain;
  }

  /** A missing local part or domain masks everything. */
  lemma MaskEmailExamples()
    ensures MaskEmail("@example.com") == FullEmailMask
    ensures MaskEmail("jo@") == FullEmailMask
  {
    SplitCons("", '@', "example.com");
    assert "@example.com" == [] + ['@'] + "example.com";
    SplitCons("jo", '@', "");
    assert "jo@" == "jo" + ['@'] + "";
  }

  // ---------------------------------------------------------------------------
  // maskIpAddress
  // ---------------------------------------------------------------------------

  predicate IsLoopbackOrUnknown(ip: string)
  {
    ip == "unknown" || ip == "::1" || ip == "127.0.0.1"
  }

  /**
   * `maskIpAddress`: loopback addresses and "unknown" as they are; four
   * dot-separated parts keep the first two and end in a dot; otherwise an
   * address with ':' keeps its first two groups; anything else is "***".
   */
  function MaskIpAddress(ip: string): (r: string)
    ensures IsLoopbackOrUnknown(ip) ==> r == ip
    ensures !IsLoopbackOrUnknown(ip) && |Split(ip, '.')| == 4 ==>
              r == Split(ip, '.')[0] + "." + Split(ip, '.')[1] + ".***.***."
    ensures !IsLoopbackOrUnknown(ip) && |Split(ip, '.')| != 4 && ':' in ip ==>
              |Split(ip, ':')| >= 2 && r == Split(ip, ':')[0] + ":" + Split(ip, ':')[1] + ":***:***"
    ensures !IsLoopbackOrUnknown(ip) && |Split(ip, '.')| != 4 && ':' !in ip ==> r == "***"
  {
    if IsLoopbackOrUnknown(ip) then ip
    else
      var parts := Split(ip, '.');
      if |parts| == 4 then parts[0] + "." + parts[1] + ".***.***."
      else if ':' in ip then
        CountPositive(ip, ':');
        SplitLength(ip, ':');
        var groups := Split(ip, ':');
        groups[0] + ":" + groups[1] + ":***:***"
      else "***"
  }

  /** Four dotted parts: the last two never show. */
  lemma MaskHidesLastOctets(a: string, b: string, c1: string, d1: string, c2: string, d2: string)
    requires '.' !in a && '.' !in b && '.' !in c1 && '.' !in d1 && '.' !in c2 && '.' !in d2
    requires !IsLoopbackOrUnknown(a + "." + b + "." + c1 + "." + d1)
    requires !IsLoopbackOrUnknown(a + "." + b + "." + c2 + "." + d2)
    ensures MaskIpAddress(a + "." + b + "." + c1 + "." + d1) == a + "." + b + ".***.***."
    ensures MaskIpAddress(a + "." + b + "." + c1 + "." + d1) == MaskIpAddress(a + "." + b + "." + c2 + "." + d2)
  {
    DottedQuadSplit(a, b, c1, d1);
    DottedQuadSplit(a, b, c2, d2);
  }

  lemma DottedQuadSplit(a: string, b: string, c: string, d: string)
    requires '.' !in a && '.' !in b && '.' !in c && '.' !in d
    ensures Split(a + "." + b + "." + c + "." + d, '.') == [a, b, c, d]
  {
    assert a + "." + b + "." + c + "." + d == a + ['.'] + (b + ['.'] + (c + ['.'] + d));
    SplitFourPieces(a, b, c, d);
  }

  lemma SplitFourPieces(a: string, b: string, c: string, d: string)
    requires '.' !in a && '.' !in b && '.' !in c && '.' !in d
    ensures Split(a + ['.'] + (b + ['.'] + (c + ['.'] + d)), '.') == [a, b, c, d]
  {
    SplitNoSeparator(d, '.');
    SplitCons(c, '.', d);
    SplitCons(b, '.', c + ['.'] + d);
    SplitCons(a, '.', b + ['.'] + (c + ['.'] + d));
  }

  // ---------------------------------------------------------------------------
  // logValidationError
  // ---------------------------------------------------------------------------

  /** The summary of a validation failure: the first three messages, joined by ", ". */
  function ErrorSummary(errors: seq<string>): (r: string)
    ensures |errors| <= 3 ==> r == Join(errors, ", ")
  {
    var kept := if |errors| < 3 then |errors| else 3;
    assert |errors| <= 3 ==> errors[..kept] == errors;
    Join(errors[..kept], ", ")
  }

  /** Messages after the third never reach the log. */
  lemma SummaryIgnoresLaterErrors(errors: seq<string>, more: seq<string>)
    requires |errors| >= 3
    ensures ErrorSummary(errors + more) == ErrorSummary(errors)
  {
    assert (errors + more)[..3] == errors[..3];
  }

  /** What `logValidationError` records, without its timestamp. */
  datatype ValidationLog = ValidationLog(maskedIp: string, endpoint: string, summary: string)

  /** `logValidationError`: the client address masked, the endpoint, and the summary of the errors. */
  function LogValidationError(ip: string, endpoint: string, errors: seq<string>): (l: ValidationLog)
    ensures l.endpoint == endpoint
    ensures l.maskedIp == MaskIpAddress(ip) && l.summary == ErrorSummary(errors)
    ensures IsLoopbackOrUnknown(ip) ==> l.maskedIp == ip
    ensures |errors| > 3 ==> l == LogValidationError(ip, endpoint, errors[..3])
  {
    ValidationLog(MaskIpAddress(ip), endpoint, ErrorSummary(errors))
  }

  /**
   * Two clients whose dotted-quad addresses share the first two parts leave
   * the same validation log entry: the last two parts never reach the log.
   */
  lemma LoggedAddressHidesLastOctets(
    a: string, b: string, c1: string, d1: string, c2: string, d2: string, endpoint: string, errors: seq<string>
  )
    requires '.' !in a && '.' !in b && '.' !in c1 && '.' !in d1 && '.' !in c2 && '.' !in d2
    requires !IsLoopbackOrUnknown(a + "." + b + "." + c1 + "." + d1)
    requires !IsLoopbackOrUnknown(a + "." + b + "." + c2 + "." + d2)
    ensures var l := LogValidationError(a + "." + b + "." + c1 + "." + d1, endpoint, errors);
            && l.maskedIp == a + "." + b + ".***.***."
            && l == LogValidationError(a + "." + b + "." + c2 + "." + d2, endpoint, errors)
  {
    MaskHidesLastOctets(a, b, c1, d1, c2, d2);
  }
}
