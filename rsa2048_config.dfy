/** `legacy/rsa_2048/config.py`: the RSA-2048 profile and its module constants. */
module LegacyRsa2048Config {
  import opened PyStr
  import opened Profile

  /** `RSA2048Config()` with every field at its default. */
  const Default: AlgorithmProfile := AlgorithmProfile(
    "RSA-2048",
    2048,
    HexShape("RSA-2048:", 512),
    "legacy",
    512,
    map["legacy" := true, "stable" := true, "modern" := true, "experimental" := false])

  const CanonicalPattern: string := "RSA-2048:[a-fA-F0-9]{512}"
  const SecurityPolicy: string := "LEGACY_COMPATIBILITY"
  const AllowedContexts: set<string> := {"legacy_migration", "compatibility_testing", "audit_verification"}

  /**
   * The compiled pattern is `CANONICAL_PATTERN` between `^` and `$`, its
   * repetition count is `digest_length`, and its literal prefix is the
   * algorithm name and a colon.
   */
  lemma PatternAgreesWithConstants()
    ensures Source(Default.pattern) == "^" + CanonicalPattern + "$"
    ensures Default.pattern.count == Default.digestLength == 512
    ensures Default.pattern.prefix == Default.algorithm + ":"
    ensures Default.keySize == 2048 && Default.securityLevel == "legacy"
  {
    assert DecimalString(5) == "5";
    assert DecimalString(51) == DecimalString(5) + "1";
    assert DecimalString(512) == DecimalString(51) + "2";
  }

  /** The shape admits `RSA-2048:` and 512 hex characters, with or without one final newline. */
  lemma ShapeAccepts(d: string)
    ensures Matches(Default.pattern, "RSA-2048:" + d) <==>
              || (|d| == 512 && AllHex(d))
              || (|d| == 513 && d[512] == '\n' && AllHex(d[..512]))
    ensures Matches(Default.pattern, "RSA-2048:" + d + "\n") <==> |d| == 512 && AllHex(d)
  {
    var s := "RSA-2048:" + d;
    assert s[..9] == "RSA-2048:";
    assert (s + "\n")[..9] == "RSA-2048:";
    if |d| >= 512 {
      assert s[9..521] == d[..512];
      assert (s + "\n")[9..521] == d[..512];
      if |d| == 512 {
        assert d[..512] == d;
      }
    } else if |d| == 511 {
      assert (s + "\n")[9..521] == d + "\n";
      assert !IsHexChar((d + "\n")[511]);
    }
  }

  /** `production` is not an allowed context; there are three. */
  lemma ContextsExcludeProduction()
    ensures "production" !in AllowedContexts
    ensures |AllowedContexts| == 3
  {
  }

  /** The matrix accepts `legacy`, `stable` and `modern`, refuses `experimental`, and has no other key. */
  lemma MatrixEntries(level: string)
    ensures level in Default.compatibilityMatrix <==> level in {"legacy", "stable", "modern", "experimental"}
    ensures level in Default.compatibilityMatrix ==> (Default.compatibilityMatrix[level] <==> level != "experimental")
  {
  }
}
