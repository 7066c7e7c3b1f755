/**
 * The verdict type of `common/automaton.py`: the closed `ValidationResult`
 * enumeration, with each case's Python name and string value.
 */
module Automaton {
  import opened PyStr
  import opened Wrappers

  /** `ValidationResult`, in declaration order. */
  datatype ValidationResult =
    | AcceptValidated
    | AcceptSingleMatch
    | AcceptCanonicalResolution
    | AcceptLegacyContext
    | RejectUnknownPattern
    | RejectDeprecatedSecurity
    | RejectContextViolation
    | RejectIncompatibleVersion

  /** Every case, in declaration order (`list(ValidationResult)`). */
  const AllResults: seq<ValidationResult> := [
    AcceptValidated, AcceptSingleMatch, AcceptCanonicalResolution, AcceptLegacyContext,
    RejectUnknownPattern, RejectDeprecatedSecurity, RejectContextViolation, RejectIncompatibleVersion
  ]

  /** The case's name (`ValidationResult.X.name`). */
  function Name(v: ValidationResult): string {
    match v
    case AcceptValidated => "ACCEPT_VALIDATED"
    case AcceptSingleMatch => "ACCEPT_SINGLE_MATCH"
    case AcceptCanonicalResolution => "ACCEPT_CANONICAL_RESOLUTION"
    case AcceptLegacyContext => "ACCEPT_LEGACY_CONTEXT"
    case RejectUnknownPattern => "REJECT_UNKNOWN_PATTERN"
    case RejectDeprecatedSecurity => "REJECT_DEPRECATED_SECURITY"
    case RejectContextViolation => "REJECT_CONTEXT_VIOLATION"
    case RejectIncompatibleVersion => "REJECT_INCOMPATIBLE_VERSION"
  }

  /** The case's value (`ValidationResult.X.value`). */
  function Value(v: ValidationResult): string {
    match v
    case AcceptValidated => "accept_validated"
    case AcceptSingleMatch => "accept_single_match"
    case AcceptCanonicalResolution => "accept_canonical_resolution"
    case AcceptLegacyContext => "accept_legacy_context"
    case RejectUnknownPattern => "reject_unknown_pattern"
    case RejectDeprecatedSecurity => "reject_deprecated_security"
    case RejectContextViolation => "reject_context_violation"
    case RejectIncompatibleVersion => "reject_incompatible_version"
  }

  /** Lookup by value, `ValidationResult(s)`; `None` where Python raises `ValueError`. */
  function FromValue(s: string): (r: Option<ValidationResult>)
    ensures r.Some? ==> Value(r.value) == s
  {
    if s == "accept_validated" then Some(AcceptValidated)
    else if s == "accept_single_match" then Some(AcceptSingleMatch)
    else if s == "accept_canonical_resolution" then Some(AcceptCanonicalResolution)
    else if s == "accept_legacy_context" then Some(AcceptLegacyContext)
    else if s == "reject_unknown_pattern" then Some(RejectUnknownPattern)
    else if s == "reject_deprecated_security" then Some(RejectDeprecatedSecurity)
    else if s == "reject_context_violation" then Some(RejectContextViolation)
    else if s == "reject_incompatible_version" then Some(RejectIncompatibleVersion)
    else None
  }

  /** An `ACCEPT_*` verdict: its name starts with `ACCEPT_`. */
  predicate IsAccept(v: ValidationResult) {
    |Name(v)| >= 7 && Name(v)[..7] == "ACCEPT_"
  }

  /** A `REJECT_*` verdict: its name starts with `REJECT_`. */
  predicate IsReject(v: ValidationResult) {
    |Name(v)| >= 7 && Name(v)[..7] == "REJECT_"
  }

  /** Lookup by value inverts `Value`, and a value names exactly one case. */
  lemma ValueRoundTrip(v: ValidationResult, s: string)
    ensures FromValue(Value(v)) == Some(v)
    ensures FromValue(s) == Some(v) <==> Value(v) == s
  {
  }

  /** The enumeration has exactly eight cases, listed once each. */
  lemma EightCases(v: ValidationResult)
    ensures |AllResults| == 8
    ensures v in AllResults
    ensures forall i, j :: 0 <= i < j < |AllResults| ==> AllResults[i] != AllResults[j]
  {
  }

  /** The values are pairwise distinct. */
  lemma ValuesDistinct(v: ValidationResult, w: ValidationResult)
    ensures Value(v) == Value(w) <==> v == w
  {
    ValueRoundTrip(v, Value(w));
    ValueRoundTrip(w, Value(w));
  }

  /** Each value is the lower-cased name of its case. */
  lemma ValueIsLowerName(v: ValidationResult)
    ensures Value(v) == Lower(Name(v))
  {
    match v
    case AcceptValidated => LowerNames0();
    case AcceptSingleMatch => LowerNames0();
    case AcceptCanonicalResolution => LowerNames1();
    case AcceptLegacyContext => LowerNames1();
    case RejectUnknownPattern => LowerNames2();
    case RejectDeprecatedSecurity => LowerNames2();
    case RejectContextViolation => LowerNames3();
    case RejectIncompatibleVersion => LowerNames3();
  }

  lemma LowerNames0()
    ensures Lower("ACCEPT_VALIDATED") == "accept_validated"
    ensures Lower("ACCEPT_SINGLE_MATCH") == "accept_single_match"
  {
    LowerLiteral("ACCEPT_VALIDATED", "accept_validated");
    LowerLiteral("ACCEPT_SINGLE_MATCH", "accept_single_match");
  }

  lemma LowerNames1()
    ensures Lower("ACCEPT_CANONICAL_RESOLUTION") == "accept_canonical_resolution"
    ensures Lower("ACCEPT_LEGACY_CONTEXT") == "accept_legacy_context"
  {
    LowerLiteral("ACCEPT_CANONICAL_RESOLUTION", "accept_canonical_resolution");
    LowerLiteral("ACCEPT_LEGACY_CONTEXT", "accept_legacy_context");
  }

  lemma LowerNames2()
    ensures Lower("REJECT_UNKNOWN_PATTERN") == "reject_unknown_pattern"
    ensures Lower("REJECT_DEPRECATED_SECURITY") == "reject_deprecated_security"
  {
    LowerLiteral("REJECT_UNKNOWN_PATTERN", "reject_unknown_pattern");
    LowerLiteral("REJECT_DEPRECATED_SECURITY", "reject_deprecated_security");
  }

  lemma LowerNames3()
    ensures Lower("REJECT_CONTEXT_VIOLATION") == "reject_context_violation"
    ensures Lower("REJECT_INCOMPATIBLE_VERSION") == "reject_incompatible_version"
  {
    LowerLiteral("REJECT_CONTEXT_VIOLATION", "reject_context_violation");
    LowerLiteral("REJECT_INCOMPATIBLE_VERSION", "reject_incompatible_version");
  }

  /** `l` is `n` lower-cased character by character. */
  lemma LowerLiteral(n: string, l: string)
    requires |n| == |l|
    requires forall i :: 0 <= i < |n| ==> LowerChar(n[i]) == l[i]
    ensures Lower(n) == l
  {
  }

  /** The four cases declared first. */
  predicate DeclaredAsAccept(v: ValidationResult) {
    v.AcceptValidated? || v.AcceptSingleMatch? || v.AcceptCanonicalResolution? || v.AcceptLegacyContext?
  }

  /** Every verdict is an accept or a reject, never both; the first four cases accept. */
  lemma AcceptRejectSplit(v: ValidationResult)
    ensures IsAccept(v) != IsReject(v)
    ensures IsAccept(v) <==> v in AllResults[..4]
    ensures IsReject(v) <==> v in AllResults[4..]
  {
    assert AllResults[..4] == [AcceptValidated, AcceptSingleMatch, AcceptCanonicalResolution, AcceptLegacyContext];
    assert AllResults[4..] == [RejectUnknownPattern, RejectDeprecatedSecurity, RejectContextViolation, RejectIncompatibleVersion];
    if DeclaredAsAccept(v) {
      AcceptPrefix(v);
    } else {
      RejectPrefix(v);
    }
  }

  lemma AcceptPrefix(v: ValidationResult)
    requires DeclaredAsAccept(v)
    ensures |Name(v)| >= 7 && Name(v)[..7] == "ACCEPT_"
  {
  }

  lemma RejectPrefix(v: ValidationResult)
    requires !DeclaredAsAccept(v)
    ensures |Name(v)| >= 7 && Name(v)[..7] == "REJECT_"
  {
  }
}
