/**
 * The abstract `PatternEnforcer` of `common/automaton.py` as a closed
 * variant over the two concrete enforcers, with its three operations
 * dispatched to the family the caller chose.
 */
module Enforcers {
  import opened Automaton
  import opened Profile
  import Legacy = LegacyRsa2048Pattern
  import Stable = StableRsa3072Pattern

  datatype Enforcer =
    | LegacyRsa2048(legacy: Legacy.PatternEnforcer)
    | StableRsa3072(stable: Stable.PatternEnforcer)
  {
    /**
     * The verdict of the chosen family: one of the five verdicts the two
     * families can give, and an unknown pattern exactly when the digest
     * does not match the family's canonical pattern.
     */
    function EnforcePrimitivePattern(primitiveDigest: string, context: string): (r: ValidationResult)
      ensures r in {AcceptValidated, RejectUnknownPattern, RejectContextViolation,
                    RejectDeprecatedSecurity, RejectIncompatibleVersion}
      ensures r == RejectUnknownPattern <==> !Matches(GetCanonicalPattern(), primitiveDigest)
    {
      match this
      case LegacyRsa2048(e) => e.EnforcePrimitivePattern(primitiveDigest, context)
      case StableRsa3072(e) => e.EnforcePrimitivePattern(primitiveDigest, context)
    }

    function GetCanonicalPattern(): HexShape {
      match this
      case LegacyRsa2048(e) => e.GetCanonicalPattern()
      case StableRsa3072(e) => e.GetCanonicalPattern()
    }

    function GetSecurityLevel(): string {
      match this
      case LegacyRsa2048(e) => e.GetSecurityLevel()
      case StableRsa3072(e) => e.GetSecurityLevel()
    }
  }

  /**
   * One enforcer of each concrete class, each over its default profile:
   * the RSA-2048 one at the `legacy` level with a 512-digit shape, the
   * RSA-3072 one at the `stable` level with a 768-digit shape.
   */
  function Shipped(): (es: seq<Enforcer>)
    ensures |es| == 2
    ensures es[0].LegacyRsa2048? && es[0].GetSecurityLevel() == "legacy"
    ensures es[0].GetCanonicalPattern() == HexShape("RSA-2048:", 512)
    ensures es[1].StableRsa3072? && es[1].GetSecurityLevel() == "stable"
    ensures es[1].GetCanonicalPattern() == HexShape("RSA-3072:", 768)
  {
    [LegacyRsa2048(Legacy.New()), StableRsa3072(Stable.New())]
  }

  /** Each shipped enforcer reports one of the levels the interface names. */
  lemma ShippedSecurityLevels(e: Enforcer)
    requires e in Shipped()
    ensures e.GetSecurityLevel() in {"legacy", "stable", "experimental"}
  {
  }

  /**
   * Whatever the profile, an enforcer never answers with an accept case
   * other than `ACCEPT_VALIDATED`, nor with `REJECT_DEPRECATED_SECURITY`,
   * and it rejects an unmatched digest as an unknown pattern.
   */
  lemma Verdicts(e: Enforcer, digest: string, context: string)
    ensures IsAccept(e.EnforcePrimitivePattern(digest, context)) <==>
              e.EnforcePrimitivePattern(digest, context) == AcceptValidated
    ensures e.EnforcePrimitivePattern(digest, context) != RejectDeprecatedSecurity
    ensures !Matches(e.GetCanonicalPattern(), digest) ==>
              e.EnforcePrimitivePattern(digest, context) == RejectUnknownPattern
  {
    var r := e.EnforcePrimitivePattern(digest, context);
    AcceptRejectSplit(r);
    assert AllResults[..4] == [AcceptValidated, AcceptSingleMatch, AcceptCanonicalResolution, AcceptLegacyContext];
    if e.LegacyRsa2048? {
      Legacy.NeverDeprecated(e.legacy, digest, context);
    }
  }
}
