/**
 * Normalisation followed by enforcement, as the security-invariant test
 * drives them: each encoding of a digest is normalised and then judged by
 * the stable RSA-3072 enforcer in the `audit_verification` context.
 */
module Pipeline {
  import opened PyStr
  import opened Automaton
  import opened Profile
  import opened Normalization
  import opened NormalizeExamples
  import Stable = StableRsa3072Pattern
  import StableConfig = StableRsa3072Config

  /** Upper-casing a repeated character repeats its upper-case form. */
  lemma UpperRepeat(c: char, n: nat)
    ensures Upper(Repeat(c, n)) == Repeat(UpperChar(c), n)
  {
  }

  /** The verdict the test collects for one encoding. */
  function Judge(variant: string): ValidationResult {
    Stable.New().EnforcePrimitivePattern(Normalize(variant), "audit_verification")
  }

  /** `RSA-3072:` and 768 upper-case hex letters is accepted for audit verification. */
  lemma CanonicalAccepted(u: string)
    requires |u| == 768 && forall i :: 0 <= i < |u| ==> 'A' <= u[i] <= 'F'
    ensures Stable.New().EnforcePrimitivePattern("RSA-3072:" + u, "audit_verification") == AcceptValidated
  {
    assert AllHex(u);
    StableConfig.ShapeAccepts(u);
    Stable.ShippedNeverIncompatible("RSA-3072:" + u, "audit_verification");
  }

  /**
   * The security invariant: for a 768-letter lower-case hex digest, the
   * three encodings `RSA-3072:`, `rsa-3072:` and `RSA_3072:` get one and the
   * same verdict, and it is `ACCEPT_VALIDATED`.
   */
  lemma SecurityInvariant(d: string)
    requires |d| == 768 && LowerHexLetters(d)
    ensures Judge("RSA-3072:" + d) == Judge("rsa-3072:" + d) == Judge("RSA_3072:" + d)
    ensures Judge("RSA-3072:" + d) == AcceptValidated
  {
    PlainJudged("RSA-3072", d);
    PlainJudged("rsa-3072", d);
    SpellingPieces(d);
    UnderscoreJudged(d);
  }

  /** The digest upper-cased is 768 letters `A`-`F`. */
  lemma UpperLetters(d: string)
    requires |d| == 768 && LowerHexLetters(d)
    ensures |Upper(d)| == 768 && forall i :: 0 <= i < 768 ==> 'A' <= Upper(d)[i] <= 'F'
  {
    UpperHexDigest(d, []);
    assert d + [] == d;
  }

  /** An encoding that normalises to `RSA-3072:` and `u` is judged as that string is. */
  lemma JudgedAs(variant: string, u: string)
    requires Normalize(variant) == "RSA-3072:" + u
    ensures Judge(variant) == Stable.New().EnforcePrimitivePattern("RSA-3072:" + u, "audit_verification")
  {
  }

  lemma PlainJudged(a: string, d: string)
    requires a == "rsa-3072" || a == "RSA-3072"
    requires |d| == 768 && LowerHexLetters(d)
    ensures Judge(a + ":" + d) == AcceptValidated
  {
    PlainSpelling(a, d);
    JudgedAs(a + ":" + d, Upper(d));
    UpperLetters(d);
    CanonicalAccepted(Upper(d));
  }

  lemma UnderscoreJudged(d: string)
    requires |d| == 768 && LowerHexLetters(d)
    ensures Judge("RSA_3072:" + d) == AcceptValidated
  {
    UnderscoreSpelling(d);
    JudgedAs("RSA_3072:" + d, Upper(d));
    UpperLetters(d);
    CanonicalAccepted(Upper(d));
  }

  /** The test's own digest, `"a" * 768`. */
  lemma SecurityInvariantSample()
    ensures Judge("RSA-3072:" + Repeat('a', 768)) == AcceptValidated
    ensures Judge("rsa-3072:" + Repeat('a', 768)) == AcceptValidated
    ensures Judge("RSA_3072:" + Repeat('a', 768)) == AcceptValidated
  {
    SecurityInvariant(Repeat('a', 768));
  }

  /**
   * Normalisation cannot rescue a digest of the wrong length: for a
   * non-empty digest of fewer than 768 letters `a`-`f`, each of the three
   * spellings `RSA-3072:`, `rsa-3072:` and `RSA_3072:` normalises to a
   * string shorter than the shape, and the enforcer answers
   * `REJECT_UNKNOWN_PATTERN`.
   */
  lemma ShortDigestRejected(d: string)
    requires d != [] && |d| < 768 && LowerHexLetters(d)
    ensures Judge("RSA-3072:" + d) == RejectUnknownPattern
    ensures Judge("rsa-3072:" + d) == RejectUnknownPattern
    ensures Judge("RSA_3072:" + d) == RejectUnknownPattern
  {
    ShortPlainRejected("RSA-3072", d);
    ShortPlainRejected("rsa-3072", d);
    SpellingPieces(d);
    ShortUnderscoreRejected(d);
  }

  /** `RSA-3072:` followed by fewer than 768 characters does not match the canonical pattern. */
  lemma ShortRejected(u: string)
    requires |u| < 768
    ensures Stable.New().EnforcePrimitivePattern("RSA-3072:" + u, "audit_verification") == RejectUnknownPattern
  {
    assert |"RSA-3072:" + u| == 9 + |u|;
  }

  lemma ShortPlainRejected(a: string, d: string)
    requires a == "rsa-3072" || a == "RSA-3072"
    requires d != [] && |d| < 768 && LowerHexLetters(d)
    ensures Judge(a + ":" + d) == RejectUnknownPattern
  {
    PlainSpelling(a, d);
    JudgedAs(a + ":" + d, Upper(d));
    ShortRejected(Upper(d));
  }

  lemma ShortUnderscoreRejected(d: string)
    requires d != [] && |d| < 768 && LowerHexLetters(d)
    ensures Judge("RSA_3072:" + d) == RejectUnknownPattern
  {
    UnderscoreSpelling(d);
    JudgedAs("RSA_3072:" + d, Upper(d));
    ShortRejected(Upper(d));
  }

  /**
   * For any non-empty hex digest, digits included, the three encodings get
   * one and the same verdict: the enforcer's answer on the canonical prefix
   * followed by the digest upper-cased and put through the delimiter
   * rewrite.
   */
  lemma SecurityInvariantHex(d: string)
    requires d != [] && AllHex(d)
    ensures Judge("RSA-3072:" + d) == Judge("rsa-3072:" + d) == Judge("RSA_3072:" + d)
    ensures Judge("RSA-3072:" + d) ==
              Stable.New().EnforcePrimitivePattern("RSA-3072:" + StandardizeDelimiters(Upper(d)), "audit_verification")
  {
    HexPlainJudged("RSA-3072", d);
    HexPlainJudged("rsa-3072", d);
    SpellingPieces(d);
    HexUnderscoreJudged(d);
  }

  lemma HexPlainJudged(a: string, d: string)
    requires a == "rsa-3072" || a == "RSA-3072"
    requires d != [] && AllHex(d)
    ensures Judge(a + ":" + d) ==
              Stable.New().EnforcePrimitivePattern("RSA-3072:" + StandardizeDelimiters(Upper(d)), "audit_verification")
  {
    HexPlainSpelling(a, d);
    JudgedAs(a + ":" + d, StandardizeDelimiters(Upper(d)));
  }

  lemma HexUnderscoreJudged(d: string)
    requires d != [] && AllHex(d)
    ensures Judge("RSA_3072:" + d) ==
              Stable.New().EnforcePrimitivePattern("RSA-3072:" + StandardizeDelimiters(Upper(d)), "audit_verification")
  {
    HexUnderscoreSpelling(d);
    JudgedAs("RSA_3072:" + d, StandardizeDelimiters(Upper(d)));
  }

  /**
   * Normalisation can turn an accepted digest into a rejected one: when a
   * 768-digit hex digest starts with a letter followed by a digit, the
   * enforcer accepts it as given, but the delimiter rewrite reads the
   * upper-cased letter and digit as an algorithm name and a key size and
   * puts a `-` between them, so the normalised string no longer matches.
   */
  lemma NormalizationRejectsAccepted(d: string)
    requires |d| == 768 && AllHex(d) && 'a' <= d[0] <= 'f' && IsDigit(d[1])
    ensures Stable.New().EnforcePrimitivePattern("RSA-3072:" + d, "audit_verification") == AcceptValidated
    ensures Judge("RSA-3072:" + d) == RejectUnknownPattern
  {
    AcceptedAsGiven(d);
    NormalisedRejected(d);
  }

  lemma AcceptedAsGiven(d: string)
    requires |d| == 768 && AllHex(d)
    ensures Stable.New().EnforcePrimitivePattern("RSA-3072:" + d, "audit_verification") == AcceptValidated
  {
    StableConfig.ShapeAccepts(d);
    Stable.ShippedNeverIncompatible("RSA-3072:" + d, "audit_verification");
  }

  lemma NormalisedRejected(d: string)
    requires |d| >= 2 && AllHex(d) && 'a' <= d[0] <= 'f' && IsDigit(d[1])
    ensures Judge("RSA-3072:" + d) == RejectUnknownPattern
  {
    HexPlainJudged("RSA-3072", d);
    SpellingPieces(d);
    DashAfterFirst(d);
    DashRejected(StandardizeDelimiters(Upper(d)));
  }

  /** The rewrite of such a digest upper-cased puts a `-` after its first letter. */
  lemma DashAfterFirst(d: string)
    requires |d| >= 2 && 'a' <= d[0] <= 'f' && IsDigit(d[1])
    ensures |StandardizeDelimiters(Upper(d))| >= 2 && StandardizeDelimiters(Upper(d))[1] == '-'
  {
    var u := Upper(d);
    assert IsUpper(u[0]) && u[1] == d[1];
    UpperRunAt(u, 1);
    UnfoldDigitBranch(u, 1, DigitRun(u[1..]));
  }

  /** A `-` in the digest's second place fails the shape. */
  lemma DashRejected(w: string)
    requires |w| >= 2 && w[1] == '-'
    ensures Stable.New().EnforcePrimitivePattern("RSA-3072:" + w, "audit_verification") == RejectUnknownPattern
  {
    var s := "RSA-3072:" + w;
    assert s[10] == w[1];
    if |s| >= 777 {
      assert s[9..777][1] == '-';
    }
    assert !Matches(Stable.New().GetCanonicalPattern(), s);
  }

  /** The digest `a1` followed by 766 `a`s is such a digest. */
  lemma NormalizationRejectsAcceptedSample()
    ensures Stable.New().EnforcePrimitivePattern("RSA-3072:" + ("a1" + Repeat('a', 766)), "audit_verification") == AcceptValidated
    ensures Judge("RSA-3072:" + ("a1" + Repeat('a', 766))) == RejectUnknownPattern
  {
    var d := "a1" + Repeat('a', 766);
    assert d[0] == 'a' && d[1] == '1';
    assert forall i :: 2 <= i < 768 ==> d[i] == 'a';
    NormalizationRejectsAccepted(d);
  }
}
