/** `stable/rsa_3072/config.py`: the RSA-3072 profile and its module constants. */
module StableRsa3072Config {
  import opened PyStr
  import opened Profile

  /** `RSA3072Config()` with every field at its default. */
  const Default: AlgorithmProfile := AlgorithmProfile(
    "RSA-3072",
    3072,
    HexShape("RSA-3072:", 768),
    "stable",
    768,
    map["legacy" := true, "stable" := true, "modern" := true, "experimental" := true])

  const CanonicalPattern: string := "RSA-3072:[a-fA-F0-9]{768}"
  const SecurityPolicy: string := "FIPS_140_2_LEVEL_3"
  const AllowedContexts: set<string> :=
    {"key_generation", "signature_verification", "production_deployment", "audit_verification", "legacy_migration"}

  /**
   * The compiled pattern is `CANONICAL_PATTERN` between `^` and `$`, its
   * repetition count is `digest_length`, and its literal prefix is the
   * algorithm name and a colon.
   */
  lemma PatternAgreesWithConstants()
    ensures Source(Default.pattern) == "^" + CanonicalPattern + "$"
    ensures Default.pattern.count == Default.digestLength == 768
    ensures Default.pattern.prefix == Default.algorithm + ":"
    ensures Default.keySize == 3072 && Default.securityLevel == "stable"
  {
    assert DecimalString(7) == "7";
    assert DecimalString(76) == DecimalString(7) + "6";
    assert DecimalString(768) == DecimalString(76) + "8";
  }

  /** The shape admits `RSA-3072:` and 768 hex characters, with or without one final newline. */
  lemma ShapeAccepts(d: string)
    ensures Matches(Default.pattern, "RSA-3072:" + d) <==>
              || (|d| == 768 && AllHex(d))
              || (|d| == 769 && d[768] == '\n' && AllHex(d[..768]))
    ensures Matches(Default.pattern, "RSA-3072:" + d + "\n") <==> |d| == 768 && AllHex(d)
  {
    var s := "RSA-3072:" + d;
    assert s[..9] == "RSA-3072:";
    assert (s + "\n")[..9] == "RSA-3072:";
    if |d| >= 768 {
      assert s[9..777] == d[..768];
      assert (s + "\n")[9..777] == d[..768];
      if |d| == 768 {
        assert d[..768] == d;
      }
    } else if |d| == 767 {
      assert (s + "\n")[9..777] == d + "\n";
      assert !IsHexChar((d + "\n")[767]);
    }
  }

  /** The matrix accepts all four levels and has no other key. */
  lemma MatrixEntries(level: string)
    ensures level in Default.compatibilityMatrix <==> level in {"legacy", "stable", "modern", "experimental"}
    ensures level in Default.compatibilityMatrix ==> Default.compatibilityMatrix[level]
  {
  }
}
