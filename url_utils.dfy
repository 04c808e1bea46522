/**
 * The validators and time arithmetic of the shortener: URL normalisation and
 * scheme check, short-code syntax and uniqueness, validity bounds, expiry, the
 * "time remaining" label and the random short-code generator.
 *
 * The clock is the parameter `now` (milliseconds); the browser's URL parser and
 * Math.random are parameters too.
 */
module UrlUtils {
  import opened Wrappers
  import opened Records

  const ShortCodeLength: nat := 6
  const DefaultValidityMinutes: int := 30
  const ValidityMaxHours: int := 24
  const MsPerMinute: int := 60 * 1000
  const MsPerHour: int := 1000 * 60 * 60

  /**
   * The k-th character of the generator's alphabet
   * "ABCDEFGHIJKLMNOPQRSTUVWXYZabcdefghijklmnopqrstuvwxyz0123456789":
   * the upper-case letters, then the lower-case letters, then the digits.
   */
  function AlphabetChar(k: nat): char
    requires k < 62
  {
    if k < 26 then ('A' as int + k) as char
    else if k < 52 then ('a' as int + (k - 26)) as char
    else ('0' as int + (k - 52)) as char
  }

  /** The 62 characters a generated short code is drawn from. */
  const Alphabet: string := seq(62, k requires 0 <= k < 62 => AlphabetChar(k))

  /** An index `Math.floor(Math.random() * 62)` can produce. */
  type AlphabetIndex = i: int | 0 <= i < 62

  /**
   * The browser's URL parser: the `protocol` of the parsed URL (with its colon,
   * "https:"), or None when the constructor throws on a malformed string.
   */
  type UrlParser = string -> Option<string>

  predicate StartsWith(s: string, prefix: string) {
    |prefix| <= |s| && s[..|prefix|] == prefix
  }

  predicate IsAsciiAlnum(c: char) {
    ('a' <= c <= 'z') || ('A' <= c <= 'Z') || ('0' <= c <= '9')
  }

  /** Accepted exactly when the parsed protocol is "http:" or "https:"; a throwing parse is rejected. */
  predicate IsValidUrl(candidate: string, parse: UrlParser) {
    match parse(candidate)
    case None => false
    case Some(protocol) => protocol in ["http:", "https:"]
  }

  /** Prefixes "https://" unless the string already starts with "http://" or "https://". */
  function NormalizeUrl(url: string): (r: string)
    ensures StartsWith(r, "http://") || StartsWith(r, "https://")
    ensures StartsWith(url, "http://") || StartsWith(url, "https://") ==> r == url
    ensures !StartsWith(url, "http://") && !StartsWith(url, "https://") ==> r == "https://" + url
  {
    if !StartsWith(url, "http://") && !StartsWith(url, "https://") then "https://" + url else url
  }

  /** Normalising twice is normalising once. */
  lemma NormalizeUrlIdempotent(url: string)
    ensures NormalizeUrl(NormalizeUrl(url)) == NormalizeUrl(url)
  {
  }

  /** The regular expression `^[a-zA-Z0-9]+$`: one or more ASCII letters or digits, nothing else. */
  predicate MatchesAlnumPattern(s: string)
    decreases |s|
  {
    |s| > 0 && IsAsciiAlnum(s[0]) && (|s| == 1 || MatchesAlnumPattern(s[1..]))
  }

  lemma {:induction false} MatchesAlnumPatternIff(s: string)
    ensures MatchesAlnumPattern(s) <==> |s| > 0 && forall i | 0 <= i < |s| :: IsAsciiAlnum(s[i])
    decreases |s|
  {
    if |s| > 1 {
      MatchesAlnumPatternIff(s[1..]);
      assert forall i | 1 <= i < |s| :: s[i] == s[1..][i - 1];
    }
  }

  /** A custom short code: a non-empty string of 3 to 20 ASCII letters and digits. */
  function IsValidShortCode(code: string): (r: bool)
    ensures r <==> 3 <= |code| <= 20 && forall i | 0 <= i < |code| :: IsAsciiAlnum(code[i])
  {
    MatchesAlnumPatternIff(code);
    code != [] && |code| >= 3 && |code| <= 20 && MatchesAlnumPattern(code)
  }

  /** No existing record carries exactly this short code (expired records included). */
  predicate IsShortCodeUnique(code: string, existing: seq<UrlRecord>)
  {
    forall i | 0 <= i < |existing| :: existing[i].shortCode != code
  }

  /** A code is free in a joined list exactly when it is free in both parts. */
  lemma {:induction false} ShortCodeUniqueAppend(code: string, xs: seq<UrlRecord>, ys: seq<UrlRecord>)
    ensures IsShortCodeUnique(code, xs + ys) <==> IsShortCodeUnique(code, xs) && IsShortCodeUnique(code, ys)
    ensures IsShortCodeUnique(code, xs) <==> FirstIndexOfCode(xs, code).None?
  {
    var zs := xs + ys;
    if IsShortCodeUnique(code, xs) && IsShortCodeUnique(code, ys) {
      forall i | 0 <= i < |zs| ensures zs[i].shortCode != code {
        if i >= |xs| {
          assert zs[i] == ys[i - |xs|];
        }
      }
    }
    if IsShortCodeUnique(code, zs) {
      forall i | 0 <= i < |xs| ensures xs[i].shortCode != code {
        assert zs[i] == xs[i];
      }
      forall j | 0 <= j < |ys| ensures ys[j].shortCode != code {
        assert zs[|xs| + j] == ys[j];
      }
    }
  }

  /**
   * The validity check as intended: a whole number of minutes between 1 and 24
   * hours, the range its error message names.
   */
  function IsValidValidityDuration(minutes: int): (r: bool)
    ensures r <==> 1 <= minutes <= 1440
  {
    minutes > 0 && minutes <= ValidityMaxHours * 60
  }

  /** 10^21: from this magnitude on, a JavaScript number is rendered in exponent notation ("1e+21"). */
  const ExponentThreshold: int := 1_000_000_000_000_000_000_000

  /** The first decimal digit of a positive number. */
  function LeadingDigit(n: nat): (d: nat)
    requires n > 0
    ensures 1 <= d <= 9
    ensures NatToString(d) == NatToString(n)[..1]
    decreases n
  {
    if n < 10 then n
    else
      var d := LeadingDigit(n / 10);
      assert NatToString(n)[..1] == NatToString(n / 10)[..1];
      d
  }

  /**
   * `parseInt` applied to a number: the number is rendered as a string first.
   * Below 10^21 in magnitude that is its plain decimal form, read back whole;
   * from 10^21 on it is exponent notation, where parsing stops at the first
   * character after the leading digit, so only the sign and that digit remain.
   */
  function ParseIntOfNumber(n: int): (r: int)
    ensures -ExponentThreshold < n < ExponentThreshold ==> r == n
    ensures n >= ExponentThreshold ==> 1 <= r <= 9 && NatToString(r) == NatToString(n)[..1]
    ensures n <= -ExponentThreshold ==> -9 <= r <= -1 && NatToString(-r) == NatToString(-n)[..1]
  {
    if -ExponentThreshold < n < ExponentThreshold then n
    else if n > 0 then LeadingDigit(n)
    else -(LeadingDigit(-n) as int)
  }

  /**
   * isValidValidityDuration as written: the range test is applied to
   * `parseInt(minutes)`, so every validity of 10^21 or more passes it.
   */
  function IsValidValidityDurationAsWritten(minutes: int): (r: bool)
    ensures r <==> 1 <= minutes <= 1440 || minutes >= ExponentThreshold
  {
    var num := ParseIntOfNumber(minutes);
    num > 0 && num <= ValidityMaxHours * 60
  }

  /**
   * A validity of 10^21 minutes passes the check as written although the
   * intended check refuses it, and its expiry lies far beyond 24 hours.
   */
  lemma HugeValidityPassesAsWritten(now: int)
    ensures IsValidValidityDurationAsWritten(ExponentThreshold)
    ensures !IsValidValidityDuration(ExponentThreshold)
    ensures CalculateExpiryTime(now, Some(ExponentThreshold)) > now + 24 * MsPerHour
  {
  }

  /** The two checks agree on every validity below 10^21. */
  lemma ValidityChecksAgreeBelowThreshold(minutes: int)
    requires minutes < ExponentThreshold
    ensures IsValidValidityDurationAsWritten(minutes) == IsValidValidityDuration(minutes)
  {
  }

  /** The expiry timestamp; an omitted validity means the default 30 minutes. */
  function CalculateExpiryTime(now: int, validityMinutes: Option<int>): int {
    var minutes := if validityMinutes.Some? then validityMinutes.value else DefaultValidityMinutes;
    now + minutes * 60 * 1000
  }

  /** A record is expired strictly after its expiry instant: at `now == expiresAt` it is still live. */
  predicate IsExpired(now: int, expiresAt: int) {
    now > expiresAt
  }

  /** A valid validity gives an expiry after `now`, at most one day ahead, not yet expired. */
  lemma ExpiryWithinWindow(now: int, minutes: int)
    requires IsValidValidityDuration(minutes)
    ensures CalculateExpiryTime(now, Some(minutes)) - now == minutes * MsPerMinute
    ensures now + MsPerMinute <= CalculateExpiryTime(now, Some(minutes)) <= now + 24 * MsPerHour
    ensures !IsExpired(now, CalculateExpiryTime(now, Some(minutes)))
  {
  }

  /** Without a validity the record lives 30 minutes: 1,800,000 ms. */
  lemma DefaultExpiry(now: int)
    ensures CalculateExpiryTime(now, None) == now + 1800000
  {
  }

  /** The remaining time split the way the label shows it. */
  datatype TimeRemaining = Expired | Remaining(hours: nat, minutes: nat)

  /** `remaining = expiresAt - now`; hours and minutes by floor division. */
  function TimeLeft(now: int, expiresAt: int): (r: TimeRemaining)
    ensures r.Expired? <==> expiresAt - now <= 0
    ensures r.Remaining? ==> r.minutes < 60
    ensures r.Remaining? ==>
      r.hours * MsPerHour + r.minutes * MsPerMinute <= expiresAt - now
      < r.hours * MsPerHour + (r.minutes + 1) * MsPerMinute
  {
    var remaining := expiresAt - now;
    if remaining <= 0 then Expired
    else
      var hours := remaining / MsPerHour;
      var minutes := (remaining % MsPerHour) / MsPerMinute;
      assert remaining == hours * MsPerHour + remaining % MsPerHour;
      Remaining(hours, minutes)
  }

  function DigitChar(d: nat): (c: char)
    requires d < 10
    ensures '0' <= c <= '9' && c as int - '0' as int == d
  {
    ('0' as int + d) as char
  }

  predicate AllDigits(s: string) {
    forall i | 0 <= i < |s| :: '0' <= s[i] <= '9'
  }

  /** The number a string of decimal digits denotes. */
  function DecimalValue(s: string): nat
    requires AllDigits(s)
  {
    if s == [] then 0 else DecimalValue(s[..|s| - 1]) * 10 + (s[|s| - 1] as int - '0' as int)
  }

  /** JavaScript's rendering of a non-negative integer in a template literal. */
  function NatToString(n: nat): (s: string)
    ensures |s| >= 1 && AllDigits(s)
    ensures DecimalValue(s) == n
    ensures s[0] == '0' ==> n == 0
    decreases n
  {
    if n < 10 then [DigitChar(n)]
    else
      var prefix := NatToString(n / 10);
      var s := prefix + [DigitChar(n % 10)];
      assert s[..|s| - 1] == prefix;
      s
  }

  /** "Expired", "{h}h {m}m" with hours, or "{m}m" under an hour. */
  function FormatTimeRemaining(t: TimeRemaining): string {
    match t
    case Expired => "Expired"
    case Remaining(h, m) =>
      if h > 0 then NatToString(h) + "h " + NatToString(m) + "m" else NatToString(m) + "m"
  }

  function GetTimeRemaining(now: int, expiresAt: int): string {
    FormatTimeRemaining(TimeLeft(now, expiresAt))
  }

  /**
   * The label reads "Expired" exactly when no time remains; otherwise it ends in
   * the minutes count and carries the hours part exactly when a full hour remains.
   */
  lemma GetTimeRemainingCases(now: int, expiresAt: int)
    ensures GetTimeRemaining(now, expiresAt) == "Expired" <==> expiresAt - now <= 0
    ensures expiresAt - now > 0 ==>
      var t := TimeLeft(now, expiresAt);
      && (t.hours > 0 <==> expiresAt - now >= MsPerHour)
      && GetTimeRemaining(now, expiresAt) ==
           (if t.hours > 0 then NatToString(t.hours) + "h " else "") + NatToString(t.minutes) + "m"
  {
    var s := GetTimeRemaining(now, expiresAt);
    if expiresAt - now > 0 {
      assert s[|s| - 1] == 'm';
      assert "Expired"[6] == 'd';
    }
  }

  /**
   * getReferrerInfo: the page's referrer, "Direct" when there is none, with the
   * user agent and the time of the call. The recorded referrer is never empty.
   */
  function GetReferrerInfo(documentReferrer: string, userAgent: string, now: int): (r: ReferrerInfo)
    ensures r.referrer != ""
    ensures documentReferrer != "" ==> r.referrer == documentReferrer
    ensures documentReferrer == "" ==> r.referrer == "Direct"
    ensures r.userAgent == userAgent && r.timestamp == now
  {
    ReferrerInfo(if documentReferrer == "" then "Direct" else documentReferrer, userAgent, now)
  }

  /** The code built from six consecutive random draws starting at draw number `offset`. */
  function CodeFromDraws(random: nat -> AlphabetIndex, offset: nat): (code: string)
    ensures |code| == ShortCodeLength
  {
    seq(ShortCodeLength, i requires 0 <= i < ShortCodeLength => Alphabet[random(offset + i)])
  }

  /** Every generated code is a valid short code: six characters of the alphabet. */
  lemma GeneratedCodeIsValid(random: nat -> AlphabetIndex, offset: nat)
    ensures IsValidShortCode(CodeFromDraws(random, offset))
  {
    var code := CodeFromDraws(random, offset);
    AlphabetIsAlnum();
    assert forall i | 0 <= i < |code| :: code[i] == Alphabet[random(offset + i)];
  }

  /** The alphabet holds 62 distinct ASCII letters and digits, in the order written above. */
  lemma AlphabetIsAlnum()
    ensures |Alphabet| == 62
    ensures forall k | 0 <= k < 62 :: IsAsciiAlnum(Alphabet[k])
    ensures forall j, k | 0 <= j < k < 62 :: Alphabet[j] != Alphabet[k]
    ensures Alphabet[0] == 'A' && Alphabet[25] == 'Z' && Alphabet[26] == 'a'
    ensures Alphabet[51] == 'z' && Alphabet[52] == '0' && Alphabet[61] == '9'
  {
  }

  /**
   * generateShortCode: appends one alphabet character per step, six steps, the
   * `random(offset + i)`-th draw choosing the i-th character.
   */
  method GenerateShortCode(random: nat -> AlphabetIndex, offset: nat) returns (code: string)
    ensures code == CodeFromDraws(random, offset)
    ensures |code| == ShortCodeLength && IsValidShortCode(code)
  {
    code := "";
    for i := 0 to ShortCodeLength
      invariant |code| == i
      invariant forall j | 0 <= j < i :: code[j] == Alphabet[random(offset + j)]
    {
      code := code + [Alphabet[random(offset + i)]];
    }
    GeneratedCodeIsValid(random, offset);
  }
}
