/**
 * `legacy/rsa_2048/pattern.py`: the RSA-2048 enforcer, an ordered
 * first-rule-wins decision over shape, context and the legacy security check.
 */
module LegacyRsa2048Pattern {
  import opened PyStr
  import opened Automaton
  import opened Profile
  import Config = LegacyRsa2048Config

  /** The enforcer; `config` is fixed when it is built and never changed. */
  datatype PatternEnforcer = PatternEnforcer(config: AlgorithmProfile)
  {
    /**
     * `enforce_primitive_pattern`: an unmatched digest is an unknown pattern,
     * then a context outside `ALLOWED_CONTEXTS` is a violation, then a legacy
     * profile used in `production` is deprecated; anything else is accepted.
     */
    function EnforcePrimitivePattern(primitiveDigest: string, context: string): (r: ValidationResult)
      ensures r in {AcceptValidated, RejectUnknownPattern, RejectContextViolation, RejectDeprecatedSecurity}
      ensures r == RejectUnknownPattern <==> !Matches(config.pattern, primitiveDigest)
    {
      if !Matches(config.pattern, primitiveDigest) then RejectUnknownPattern
      else if context !in Config.AllowedContexts then RejectContextViolation
      else if context == "production" && config.securityLevel == "legacy" then RejectDeprecatedSecurity
      else AcceptValidated
    }

    function GetCanonicalPattern(): HexShape {
      config.pattern
    }

    function GetSecurityLevel(): string {
      config.securityLevel
    }
  }

  /** `PatternEnforcer()`: built over the default RSA-2048 profile. */
  function New(): (e: PatternEnforcer)
    ensures e.GetSecurityLevel() == "legacy"
    ensures e.GetCanonicalPattern() == HexShape("RSA-2048:", 512)
  {
    PatternEnforcer(Config.Default)
  }

  /**
   * The three outcomes, whatever the profile: a digest the shape refuses is an
   * unknown pattern in every context; a matched digest is a context violation
   * outside the allowed contexts and accepted inside them.
   */
  lemma Decision(e: PatternEnforcer, digest: string, context: string)
    ensures !Matches(e.config.pattern, digest) ==> e.EnforcePrimitivePattern(digest, context) == RejectUnknownPattern
    ensures Matches(e.config.pattern, digest) && context !in Config.AllowedContexts ==>
              e.EnforcePrimitivePattern(digest, context) == RejectContextViolation
    ensures Matches(e.config.pattern, digest) && context in Config.AllowedContexts ==>
              e.EnforcePrimitivePattern(digest, context) == AcceptValidated
  {
    Config.ContextsExcludeProduction();
  }

  /**
   * `REJECT_DEPRECATED_SECURITY` is never returned: the check for `production`
   * runs only on contexts already found in `ALLOWED_CONTEXTS`, which lacks it.
   */
  lemma NeverDeprecated(e: PatternEnforcer, digest: string, context: string)
    ensures e.EnforcePrimitivePattern(digest, context) in {AcceptValidated, RejectUnknownPattern, RejectContextViolation}
  {
    Decision(e, digest, context);
  }

  /** A well-formed digest in `production` is a context violation, not a deprecation. */
  lemma ProductionIsViolation(digest: string)
    requires Matches(New().config.pattern, digest)
    ensures New().EnforcePrimitivePattern(digest, "production") == RejectContextViolation
  {
    Config.ContextsExcludeProduction();
  }

  /** Accepted exactly when the digest has the shape and the context is allowed. */
  lemma AcceptIff(e: PatternEnforcer, digest: string, context: string)
    ensures e.EnforcePrimitivePattern(digest, context) == AcceptValidated <==>
              Matches(e.config.pattern, digest) && context in Config.AllowedContexts
  {
    Decision(e, digest, context);
  }

  /** Input is not normalised: a lower-case prefix or another algorithm name is an unknown pattern. */
  lemma UnnormalisedRejected(d: string, context: string)
    ensures New().EnforcePrimitivePattern("rsa-2048:" + d, context) == RejectUnknownPattern
    ensures New().EnforcePrimitivePattern("INVALID-PATTERN:xyz123", context) == RejectUnknownPattern
  {
    assert ("rsa-2048:" + d)[..9] == "rsa-2048:";
    WrongPrefixRejected(New().config.pattern, "rsa-2048:" + d);
  }

  /** `RSA-2048:` and 512 `a`s is accepted for audit verification and refused in an unknown context. */
  lemma SampleDigest()
    ensures New().EnforcePrimitivePattern("RSA-2048:" + Repeat('a', 512), "audit_verification") == AcceptValidated
    ensures New().EnforcePrimitivePattern("RSA-2048:" + Repeat('a', 512), "invalid_context") == RejectContextViolation
  {
    Config.ShapeAccepts(Repeat('a', 512));
    Decision(New(), "RSA-2048:" + Repeat('a', 512), "audit_verification");
    Decision(New(), "RSA-2048:" + Repeat('a', 512), "invalid_context");
  }

  /** Python's `$` lets a final newline through: the sample digest with `\n` appended is accepted. */
  lemma TrailingNewlineAccepted()
    ensures New().EnforcePrimitivePattern("RSA-2048:" + Repeat('a', 512) + "\n", "audit_verification") == AcceptValidated
  {
    Config.ShapeAccepts(Repeat('a', 512));
    Decision(New(), "RSA-2048:" + Repeat('a', 512) + "\n", "audit_verification");
  }
}
