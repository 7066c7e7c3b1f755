/**
 * `stable/rsa_3072/pattern.py`: the RSA-3072 enforcer, an ordered
 * first-rule-wins decision over shape, context and the compatibility matrix.
 */
module StableRsa3072Pattern {
  import opened PyStr
  import opened Automaton
  import opened Profile
  import Config = StableRsa3072Config

  /** The `context_map` of `_validate_compatibility`: the level a context requires. */
  const ContextMap: map<string, string> :=
    map["production_deployment" := "stable", "legacy_migration" := "legacy", "key_generation" := "modern"]

  /**
   * `context_map.get(context, "stable")`: production deployment needs the
   * stable level, legacy migration the legacy one, key generation the
   * modern one, and every other context the stable one.
   */
  function RequiredLevel(context: string): (level: string)
    ensures context == "production_deployment" ==> level == "stable"
    ensures context == "legacy_migration" ==> level == "legacy"
    ensures context == "key_generation" ==> level == "modern"
    ensures context !in {"production_deployment", "legacy_migration", "key_generation"} ==> level == "stable"
  {
    if context in ContextMap then ContextMap[context] else "stable"
  }

  /** `matrix.get(level, False)`. */
  function MatrixGet(matrix: map<string, bool>, level: string): (ok: bool)
    ensures ok <==> level in matrix && matrix[level]
  {
    if level in matrix then matrix[level] else false
  }

  /** The enforcer; `config` is fixed when it is built and never changed. */
  datatype PatternEnforcer = PatternEnforcer(config: AlgorithmProfile)
  {
    /**
     * `_validate_compatibility`: key generation is compatible when the matrix
     * grants `modern`, legacy migration when it grants `legacy`, and every
     * other context when it grants `stable`; a missing entry refuses.
     */
    function ValidateCompatibility(context: string): (ok: bool)
      ensures context == "key_generation" ==>
                (ok <==> "modern" in config.compatibilityMatrix && config.compatibilityMatrix["modern"])
      ensures context == "legacy_migration" ==>
                (ok <==> "legacy" in config.compatibilityMatrix && config.compatibilityMatrix["legacy"])
      ensures context != "key_generation" && context != "legacy_migration" ==>
                (ok <==> "stable" in config.compatibilityMatrix && config.compatibilityMatrix["stable"])
    {
      MatrixGet(config.compatibilityMatrix, RequiredLevel(context))
    }

    /**
     * `enforce_primitive_pattern`: an unmatched digest is an unknown pattern,
     * then a context outside `ALLOWED_CONTEXTS` is a violation, then a context
     * whose required level the matrix does not grant is incompatible;
     * anything else is accepted.
     */
    function EnforcePrimitivePattern(primitiveDigest: string, context: string): (r: ValidationResult)
      ensures r in {AcceptValidated, RejectUnknownPattern, RejectContextViolation, RejectIncompatibleVersion}
      ensures r == RejectUnknownPattern <==> !Matches(config.pattern, primitiveDigest)
    {
      if !Matches(config.pattern, primitiveDigest) then RejectUnknownPattern
      else if context !in Config.AllowedContexts then RejectContextViolation
      else if !ValidateCompatibility(context) then RejectIncompatibleVersion
      else AcceptValidated
    }

    function GetCanonicalPattern(): HexShape {
      config.pattern
    }

    function GetSecurityLevel(): string {
      config.securityLevel
    }
  }

  /** `PatternEnforcer()`: built over the default RSA-3072 profile. */
  function New(): (e: PatternEnforcer)
    ensures e.GetSecurityLevel() == "stable"
    ensures e.GetCanonicalPattern() == HexShape("RSA-3072:", 768)
  {
    PatternEnforcer(Config.Default)
  }

  /** Every context `context_map` names is an allowed one, and there are five allowed contexts. */
  lemma MappedContextsAllowed()
    ensures ContextMap.Keys <= Config.AllowedContexts && |Config.AllowedContexts| == 5
  {
  }

  /**
   * Whatever the matrix: a digest the shape refuses is an unknown pattern in
   * every context, a matched digest outside the allowed contexts is a violation,
   * and the verdict is incompatible exactly when the digest has the shape, the
   * context is allowed and the matrix lacks or refuses the required level.
   */
  lemma Decision(e: PatternEnforcer, digest: string, context: string)
    ensures !Matches(e.config.pattern, digest) ==> e.EnforcePrimitivePattern(digest, context) == RejectUnknownPattern
    ensures Matches(e.config.pattern, digest) && context !in Config.AllowedContexts ==>
              e.EnforcePrimitivePattern(digest, context) == RejectContextViolation
    ensures e.EnforcePrimitivePattern(digest, context) == RejectIncompatibleVersion <==>
              && Matches(e.config.pattern, digest)
              && context in Config.AllowedContexts
              && !MatrixGet(e.config.compatibilityMatrix, RequiredLevel(context))
    ensures e.EnforcePrimitivePattern(digest, context) == AcceptValidated <==>
              && Matches(e.config.pattern, digest)
              && context in Config.AllowedContexts
              && MatrixGet(e.config.compatibilityMatrix, RequiredLevel(context))
  {
  }

  /**
   * With the shipped all-true matrix, a well-formed digest in an allowed
   * context is always accepted, so `REJECT_INCOMPATIBLE_VERSION` never occurs.
   */
  lemma ShippedNeverIncompatible(digest: string, context: string)
    ensures Matches(New().config.pattern, digest) && context in Config.AllowedContexts ==>
              New().EnforcePrimitivePattern(digest, context) == AcceptValidated
    ensures New().EnforcePrimitivePattern(digest, context) != RejectIncompatibleVersion
  {
    Config.MatrixEntries(RequiredLevel(context));
    Decision(New(), digest, context);
  }

  /** The third step is live under another matrix: without a `modern` entry, key generation is incompatible. */
  lemma IncompatibleReachable(digest: string)
    requires Matches(Config.Default.pattern, digest)
    ensures PatternEnforcer(Config.Default.(compatibilityMatrix := map["stable" := true, "legacy" := true]))
              .EnforcePrimitivePattern(digest, "key_generation") == RejectIncompatibleVersion
  {
  }

  /** `RSA-3072:` and 768 `b`s is accepted for audit verification. */
  lemma SampleDigest()
    ensures New().EnforcePrimitivePattern("RSA-3072:" + Repeat('b', 768), "audit_verification") == AcceptValidated
  {
    Config.ShapeAccepts(Repeat('b', 768));
    ShippedNeverIncompatible("RSA-3072:" + Repeat('b', 768), "audit_verification");
  }
}
