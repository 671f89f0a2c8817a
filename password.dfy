/** The password service: salted hashing and verification, the password
    policy, and the history check used by password reset. */
module Passwords {
  import opened Common
  import opened Text

  newtype byte = b: int | 0 <= b < 256

  /** PBKDF2 with HMAC-SHA-512 (section 5.2 of RFC 8018), 100000 iterations,
      64-byte output, taken as a deterministic function of (password, salt text)
      that the model does not interpret. */
  type Kdf = (string, string) -> seq<byte>

  /** `crypto.randomBytes(16)`. */
  const SaltLength: nat := 16

  /** The policy's minimum length. */
  const MinLength: nat := 12

  /** Common passwords: a password containing one of them (ignoring case) is refused. */
  const Blacklist: seq<string> := [
    "Password123",
    "Orange2024",
    "Orange2026",
    "Admin123",
    "Welcome123",
    "123456789",
    "qwerty123"
  ]

  // ---------------------------------------------------------------------------
  // Hex encoding (`Buffer.toString('hex')`)

  predicate IsHexDigit(c: char) { IsAsciiDigit(c) || 'a' <= c <= 'f' }

  function HexDigit(n: int): (c: char)
    requires 0 <= n < 16
    ensures IsHexDigit(c)
  {
    if n < 10 then ('0' as int + n) as char else ('a' as int + n - 10) as char
  }

  lemma HexDigitInjective(m: int, n: int)
    requires 0 <= m < 16 && 0 <= n < 16
    ensures HexDigit(m) == HexDigit(n) ==> m == n
  {
  }

  /** Two lower-case hex digits per byte, high nibble first. */
  function HexEncode(bytes: seq<byte>): (r: string)
    ensures |r| == 2 * |bytes|
    ensures forall k :: 0 <= k < |r| ==> IsHexDigit(r[k])
    decreases |bytes|
  {
    if |bytes| == 0 then ""
    else
      var b := bytes[0] as int;
      [HexDigit(b / 16), HexDigit(b % 16)] + HexEncode(bytes[1..])
  }

  /** Different byte strings have different hex encodings. */
  lemma {:induction false} HexEncodeInjective(a: seq<byte>, b: seq<byte>)
    requires HexEncode(a) == HexEncode(b)
    ensures a == b
    decreases |a|
  {
    if |a| > 0 {
      var ea, eb := HexEncode(a), HexEncode(b);
      assert |b| == |a|;
      var x, y := a[0] as int, b[0] as int;
      assert ea[0] == eb[0] && ea[1] == eb[1];
      HexDigitInjective(x / 16, y / 16);
      HexDigitInjective(x % 16, y % 16);
      assert ea[2..] == HexEncode(a[1..]) && eb[2..] == HexEncode(b[1..]);
      HexEncodeInjective(a[1..], b[1..]);
      assert a == [a[0]] + a[1..] && b == [b[0]] + b[1..];
    }
  }

  lemma HexHasNoColon(s: string)
    requires forall k :: 0 <= k < |s| ==> IsHexDigit(s[k])
    ensures ':' !in s
  {
  }

  // ---------------------------------------------------------------------------
  // hash / verify

  /** `hash`: the stored record `salt ':' key`, both in hex, where `salt` stands
      for the 16 random bytes the source draws. The record splits at its one
      colon into exactly the salt and the derived key. */
  function Hash(password: string, salt: seq<byte>, kdf: Kdf): (record: string)
    ensures SplitOn(record, ':') == [HexEncode(salt), HexEncode(kdf(password, HexEncode(salt)))]
    ensures |salt| == SaltLength ==> |SplitOn(record, ':')[0]| == 2 * SaltLength
  {
    var saltHex := HexEncode(salt);
    var keyHex := HexEncode(kdf(password, saltHex));
    HexHasNoColon(saltHex);
    HexHasNoColon(keyHex);
    assert JoinWith([saltHex, keyHex], [':']) == saltHex + ":" + keyHex;
    SplitJoin([saltHex, keyHex], ':');
    saltHex + ":" + keyHex
  }

  /** `verify`: re-derive with the stored salt and compare with the stored key.
      A record without a colon has no key and never verifies. */
  function Verify(record: string, password: string, kdf: Kdf): bool
  {
    var parts := SplitOn(record, ':');
    |parts| >= 2 && parts[1] == HexEncode(kdf(password, parts[0]))
  }

  /** A record made by `Hash` verifies the password it was made from. */
  lemma VerifyHash(password: string, salt: seq<byte>, kdf: Kdf)
    ensures Verify(Hash(password, salt, kdf), password, kdf)
  {
  }

  /** A record made by `Hash` verifies a candidate exactly when the KDF gives the
      candidate the same key under the same salt. */
  lemma VerifyHashIff(password: string, candidate: string, salt: seq<byte>, kdf: Kdf)
    ensures Verify(Hash(password, salt, kdf), candidate, kdf)
        <==> kdf(candidate, HexEncode(salt)) == kdf(password, HexEncode(salt))
  {
    var s := HexEncode(salt);
    if HexEncode(kdf(candidate, s)) == HexEncode(kdf(password, s)) {
      HexEncodeInjective(kdf(candidate, s), kdf(password, s));
    }
  }

  /** No two passwords share a key under one salt. */
  ghost predicate CollisionFree(kdf: Kdf)
  {
    forall p, q, s :: p != q ==> kdf(p, s) != kdf(q, s)
  }

  /** With a collision-free KDF, a record made from one password rejects every other one. */
  lemma VerifyRejectsOtherPassword(password: string, other: string, salt: seq<byte>, kdf: Kdf)
    requires CollisionFree(kdf) && other != password
    ensures !Verify(Hash(password, salt, kdf), other, kdf)
  {
    VerifyHashIff(password, other, salt, kdf);
  }

  // ---------------------------------------------------------------------------
  // validate

  /** The personal details the policy compares against. */
  datatype UserInfo = UserInfo(email: string, firstName: string, lastName: string)

  /** The policy's four reasons, in the order they are checked. */
  datatype PolicyError = TooShort | TooSimple | TooCommon | PersonalInfo
  {
    function Rank(): nat
    {
      match this
      case TooShort => 0
      case TooSimple => 1
      case TooCommon => 2
      case PersonalInfo => 3
    }

    function Message(): string
    {
      match this
      case TooShort => "Password must be at least 12 characters"
      case TooSimple => "Password must include at least 3 of: uppercase, lowercase, numbers, symbols"
      case TooCommon => "This password is too common"
      case PersonalInfo => "Password cannot contain your personal information"
    }
  }

  datatype Validation = Validation(valid: bool, errors: seq<PolicyError>)

  predicate HasUpper(p: string) { exists i | 0 <= i < |p| :: IsAsciiUpper(p[i]) }
  predicate HasLower(p: string) { exists i | 0 <= i < |p| :: IsAsciiLower(p[i]) }
  predicate HasDigit(p: string) { exists i | 0 <= i < |p| :: IsAsciiDigit(p[i]) }
  /** `/[^A-Za-z0-9]/`: some character that is not an ASCII letter or digit. */
  predicate HasSymbol(p: string) { exists i | 0 <= i < |p| :: !IsAsciiAlnum(p[i]) }

  function Indicator(b: bool): nat { if b then 1 else 0 }

  /** How many of the four character classes occur (`[...].filter(Boolean).length`). */
  function Complexity(p: string): nat
  {
    Indicator(HasUpper(p)) + Indicator(HasLower(p)) + Indicator(HasDigit(p)) + Indicator(HasSymbol(p))
  }

  /** The text before the first `@` (`email.split('@')[0]`), the whole email when there is none. */
  function EmailLocalPart(email: string): (r: string)
    ensures '@' !in r
    ensures StartsWith(email, r)
    ensures r == email || email[|r|] == '@'
  {
    if '@' in email then
      var i := IndexOf(email, '@');
      assert SplitOn(email, '@')[0] == email[..i];
      SplitOn(email, '@')[0]
    else SplitOn(email, '@')[0]
  }

  /** Some lower-cased blacklist entry occurs in the lower-cased password. */
  ghost predicate ContainsCommonWord(p: string)
  {
    exists k, i :: 0 <= k < |Blacklist| && OccursAt(ToLower(p), ToLower(Blacklist[k]), i)
  }

  /** The lower-cased password contains the lower-cased email local part, first or last name. */
  ghost predicate ContainsPersonalInfo(p: string, u: UserInfo)
  {
    exists i :: OccursAt(ToLower(p), ToLower(EmailLocalPart(u.email)), i)
             || OccursAt(ToLower(p), ToLower(u.firstName), i)
             || OccursAt(ToLower(p), ToLower(u.lastName), i)
  }

  /** The blacklist check as the source runs it, with `includes`. */
  function IsCommon(password: string): (r: bool)
    ensures r <==> ContainsCommonWord(password)
  {
    var lower := ToLower(password);
    exists k | 0 <= k < |Blacklist| :: Includes(lower, ToLower(Blacklist[k]))
  }

  /** The personal-information check as the source runs it, with `includes`. */
  function MentionsUser(password: string, u: UserInfo): (r: bool)
    ensures r <==> ContainsPersonalInfo(password, u)
  {
    var lower := ToLower(password);
    Includes(lower, ToLower(EmailLocalPart(u.email)))
    || Includes(lower, ToLower(u.firstName))
    || Includes(lower, ToLower(u.lastName))
  }

  /** Errors listed in the order the rules are checked. */
  ghost predicate RankOrdered(errors: seq<PolicyError>)
  {
    forall i, j :: 0 <= i < j < |errors| ==> errors[i].Rank() < errors[j].Rank()
  }

  lemma RankOrderedCons(e: PolicyError, rest: seq<PolicyError>)
    requires RankOrdered(rest) && forall x :: x in rest ==> e.Rank() < x.Rank()
    ensures RankOrdered([e] + rest)
  {
    var r := [e] + rest;
    forall i, j | 0 <= i < j < |r| ensures r[i].Rank() < r[j].Rank() {
      if i > 0 {
        assert r[i] == rest[i - 1] && r[j] == rest[j - 1];
      } else {
        assert r[j] in rest;
      }
    }
  }

  /** The rules in the order `validate` checks them. */
  const Rules: seq<PolicyError> := [TooShort, TooSimple, TooCommon, PersonalInfo]

  /** Whether the password breaks one rule; the personal-information rule
      applies only when user details are given. */
  function Breaks(rule: PolicyError, password: string, user: Option<UserInfo>): bool
  {
    match rule
    case TooShort => Utf16Length(password) < MinLength
    case TooSimple => Complexity(password) < 3
    case TooCommon => IsCommon(password)
    case PersonalInfo => user.Some? && MentionsUser(password, user.value)
  }

  /** The `errors.push` calls: the rules among `rules` that are in `broken`,
      in their order. */
  function Violations(rules: seq<PolicyError>, broken: set<PolicyError>): (r: seq<PolicyError>)
    ensures |r| <= |rules|
    ensures forall x :: x in r <==> x in rules && x in broken
    decreases |rules|
  {
    if |rules| == 0 then []
    else (if rules[0] in broken then [rules[0]] else []) + Violations(rules[1..], broken)
  }

  /** Reported errors keep the order in which the rules are checked. */
  lemma {:induction false} ViolationsOrdered(rules: seq<PolicyError>, broken: set<PolicyError>)
    requires RankOrdered(rules)
    ensures RankOrdered(Violations(rules, broken))
    decreases |rules|
  {
    if |rules| > 0 {
      var rest := Violations(rules[1..], broken);
      ViolationsOrdered(rules[1..], broken);
      if rules[0] in broken {
        forall x | x in rest ensures rules[0].Rank() < x.Rank() {
          var j :| 0 <= j < |rules| - 1 && rules[1..][j] == x;
          assert rules[j + 1] == x;
        }
        RankOrderedCons(rules[0], rest);
      }
    }
  }

  /** The rules a password breaks. */
  function Broken(password: string, user: Option<UserInfo>): (b: set<PolicyError>)
    ensures forall e :: e in b <==> Breaks(e, password, user)
  {
    assert Rules[0] == TooShort && Rules[1] == TooSimple && Rules[2] == TooCommon && Rules[3] == PersonalInfo;
    set e | e in Rules && Breaks(e, password, user)
  }

  /** `validate`: collects every violated rule, in order; never throws. */
  function Validate(password: string, user: Option<UserInfo>): (v: Validation)
    ensures v.valid <==> v.errors == []
  {
    var errors := Violations(Rules, Broken(password, user));
    Validation(|errors| == 0, errors)
  }

  /** What `validate` reports: at most the four rules, each exactly when it is
      broken, in the order they are checked. */
  lemma ValidateReports(password: string, user: Option<UserInfo>)
    ensures var v := Validate(password, user);
            |v.errors| <= 4
            && RankOrdered(v.errors)
            && (TooShort in v.errors <==> Utf16Length(password) < MinLength)
            && (TooSimple in v.errors <==> Complexity(password) < 3)
            && (TooCommon in v.errors <==> ContainsCommonWord(password))
            && (PersonalInfo in v.errors <==> user.Some? && ContainsPersonalInfo(password, user.value))
  {
    assert Rules[0] == TooShort && Rules[1] == TooSimple && Rules[2] == TooCommon && Rules[3] == PersonalInfo;
    assert RankOrdered(Rules);
    ViolationsOrdered(Rules, Broken(password, user));
  }

  /** The length rule counts UTF-16 code units, as JavaScript does: four
      characters outside the Basic Multilingual Plane take eight units, so
      "Aa1!" followed by four of them is long enough. */
  lemma {:induction false} LengthCountsCodeUnits()
    ensures var p := "Aa1!\U{1F600}\U{1F600}\U{1F600}\U{1F600}";
            |p| == 8 && Utf16Length(p) == 12 && !Breaks(TooShort, p, None)
  {
    var p := "Aa1!\U{1F600}\U{1F600}\U{1F600}\U{1F600}";
    var n := 0;
    while n < |p|
      invariant 0 <= n <= |p|
      invariant Utf16Length(p[..n]) == if n <= 4 then n else 4 + 2 * (n - 4)
    {
      assert p[..n + 1] == p[..n] + [p[n]];
      Utf16LengthAppend(p[..n], [p[n]]);
      Utf16LengthOne(p[n]);
      n := n + 1;
    }
    assert p[..|p|] == p;
  }

  // ---------------------------------------------------------------------------
  // isInHistory

  /** The password verifies against some hash of the history. */
  predicate InHistory(password: string, history: seq<string>, kdf: Kdf)
  {
    exists i | 0 <= i < |history| :: Verify(history[i], password, kdf)
  }

  /** `isInHistory`: whether the password verifies against some stored hash;
      an empty history never matches. */
  method IsInHistory(password: string, history: seq<string>, kdf: Kdf) returns (found: bool)
    ensures found <==> InHistory(password, history, kdf)
    ensures found <==> exists i :: 0 <= i < |history| && Verify(history[i], password, kdf)
    ensures history == [] ==> !found
  {
    if |history| == 0 {
      return false;
    }
    for i := 0 to |history|
      invariant forall j :: 0 <= j < i ==> !Verify(history[j], password, kdf)
    {
      if Verify(history[i], password, kdf) {
        return true;
      }
    }
    return false;
  }
}
