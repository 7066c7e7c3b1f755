/**
 * `common/audit.py`: an audit node that keeps only prefixed, truncated hash
 * references of the digest and the pattern, its serialised record, and the
 * integrity check that recomputes the references.
 */
module Audit {
  import opened PyStr
  import opened Wrappers

  predicate IsLowerHexChar(c: char) {
    IsDigit(c) || 'a' <= c <= 'f'
  }

  /**
   * `hashlib.sha256(s.encode()).hexdigest()[:16]`, taken as a parameter: any
   * function whose every value is 16 lower-case hex characters. Nothing else
   * about SHA-256 is assumed (in particular not that it is injective).
   */
  type Hash16 = f: string -> string | forall s :: |f(s)| == 16 && forall i :: 0 <= i < 16 ==> IsLowerHexChar(f(s)[i])
    witness (s: string) => "0000000000000000"

  /** The instant `datetime.utcnow()` returned, kept as the text `isoformat()` gives for it. */
  datatype Timestamp = Timestamp(iso: string)

  const DefaultComplianceLevel: string := "OBINexus-v1.0"

  /** The keys of the record `to_audit_record` builds. */
  const RecordKeys: set<string> := {"timestamp", "primitive_ref", "pattern_ref", "context", "compliance_level"}

  /** The reference kept for a primitive digest: `PRIM_` and its truncated hash. */
  function PrimitiveRef(h: Hash16, digest: string): (r: string)
    ensures |r| == 21 && r[..5] == "PRIM_" && r[5..] == h(digest)
  {
    "PRIM_" + h(digest)
  }

  /** The reference kept for a pattern: `PAT_` and its truncated hash. */
  function PatternRef(h: Hash16, pattern: string): (r: string)
    ensures |r| == 20 && r[..4] == "PAT_" && r[4..] == h(pattern)
  {
    "PAT_" + h(pattern)
  }

  /** `SecureAuditNode`, one field per dataclass field. */
  datatype SecureAuditNode = SecureAuditNode(
    timestamp: Timestamp,
    primitiveHash: string,
    patternHash: string,
    operationContext: string,
    complianceLevel: string)
  {
    /** `to_audit_record`: the five mandatory keys, each mapped to its field. */
    function ToAuditRecord(): (rec: map<string, string>)
      ensures rec.Keys == RecordKeys
    {
      map[
        "timestamp" := timestamp.iso,
        "primitive_ref" := primitiveHash,
        "pattern_ref" := patternHash,
        "context" := operationContext,
        "compliance_level" := complianceLevel]
    }

    /** `verify_integrity`: both stored references equal the ones recomputed from the originals. */
    predicate VerifyIntegrity(h: Hash16, originalDigest: string, originalPattern: string) {
      primitiveHash == PrimitiveRef(h, originalDigest) && patternHash == PatternRef(h, originalPattern)
    }
  }

  /**
   * `create_audit_entry`: the hash references of the digest and the pattern,
   * the context as given, the clock reading `now`, and the default compliance
   * level.
   */
  function CreateAuditEntry(h: Hash16, now: Timestamp, primitiveDigest: string, pattern: string, context: string): (n: SecureAuditNode)
    ensures n.primitiveHash == PrimitiveRef(h, primitiveDigest)
    ensures n.patternHash == PatternRef(h, pattern)
    ensures n.operationContext == context && n.timestamp == now
    ensures n.complianceLevel == DefaultComplianceLevel
  {
    SecureAuditNode(now, PrimitiveRef(h, primitiveDigest), PatternRef(h, pattern), context, DefaultComplianceLevel)
  }

  /** Reads a node back from a record; `None` when a key is missing. */
  function FromAuditRecord(rec: map<string, string>): (n: Option<SecureAuditNode>)
    ensures n.Some? <==> RecordKeys <= rec.Keys
  {
    if RecordKeys <= rec.Keys then
      Some(SecureAuditNode(Timestamp(rec["timestamp"]), rec["primitive_ref"], rec["pattern_ref"],
                           rec["context"], rec["compliance_level"]))
    else None
  }

  /** The record loses nothing: each key carries its field unchanged, and reading it back gives the node. */
  lemma RecordRoundTrip(n: SecureAuditNode)
    ensures FromAuditRecord(n.ToAuditRecord()) == Some(n)
    ensures n.ToAuditRecord()["primitive_ref"] == n.primitiveHash
    ensures n.ToAuditRecord()["pattern_ref"] == n.patternHash
    ensures n.ToAuditRecord()["context"] == n.operationContext
    ensures n.ToAuditRecord()["compliance_level"] == n.complianceLevel
    ensures n.ToAuditRecord()["timestamp"] == n.timestamp.iso
  {
  }

  /** A fresh entry's record holds `PRIM_` and 16 hex characters, `PAT_` and 16 hex characters, and the context. */
  lemma EntryRecordShape(h: Hash16, now: Timestamp, digest: string, pattern: string, context: string)
    ensures var rec := CreateAuditEntry(h, now, digest, pattern, context).ToAuditRecord();
      && |rec["primitive_ref"]| == 21 && rec["primitive_ref"][..5] == "PRIM_"
      && (forall i :: 5 <= i < 21 ==> IsLowerHexChar(rec["primitive_ref"][i]))
      && |rec["pattern_ref"]| == 20 && rec["pattern_ref"][..4] == "PAT_"
      && (forall i :: 4 <= i < 20 ==> IsLowerHexChar(rec["pattern_ref"][i]))
      && rec["context"] == context
      && rec["compliance_level"] == "OBINexus-v1.0"
  {
    var rec := CreateAuditEntry(h, now, digest, pattern, context).ToAuditRecord();
    forall i | 5 <= i < 21 ensures IsLowerHexChar(rec["primitive_ref"][i]) {
      assert rec["primitive_ref"][i] == h(digest)[i - 5];
    }
    forall i | 4 <= i < 20 ensures IsLowerHexChar(rec["pattern_ref"][i]) {
      assert rec["pattern_ref"][i] == h(pattern)[i - 4];
    }
  }

  /** An entry checks out against the digest and the pattern it was made from. */
  lemma IntegrityRoundTrip(h: Hash16, now: Timestamp, digest: string, pattern: string, context: string)
    ensures CreateAuditEntry(h, now, digest, pattern, context).VerifyIntegrity(h, digest, pattern)
  {
  }

  /**
   * An entry checks out against other originals exactly when their truncated
   * hashes equal those of the originals it was made from: a differing hash
   * fails the check, a colliding one passes it.
   */
  lemma IntegrityIff(h: Hash16, now: Timestamp, digest: string, pattern: string, context: string,
                     digest': string, pattern': string)
    ensures CreateAuditEntry(h, now, digest, pattern, context).VerifyIntegrity(h, digest', pattern') <==>
              h(digest') == h(digest) && h(pattern') == h(pattern)
  {
    var n := CreateAuditEntry(h, now, digest, pattern, context);
    if n.VerifyIntegrity(h, digest', pattern') {
      assert PrimitiveRef(h, digest)[5..] == PrimitiveRef(h, digest')[5..];
      assert PatternRef(h, pattern)[4..] == PatternRef(h, pattern')[4..];
    }
  }

  /** The node depends on the digest and the pattern only through their truncated hashes. */
  lemma OnlyHashesKept(h: Hash16, now: Timestamp, d1: string, p1: string, d2: string, p2: string, context: string)
    requires h(d1) == h(d2) && h(p1) == h(p2)
    ensures CreateAuditEntry(h, now, d1, p1, context) == CreateAuditEntry(h, now, d2, p2, context)
  {
  }

  /**
   * Keeping only hash references does not keep every digest out of the
   * record's text: a digest that is itself a piece of the fixed `PRIM_`
   * prefix (here `PRIM`) occurs in every record.
   */
  lemma ShortDigestAppears(h: Hash16, now: Timestamp, pattern: string, context: string)
    ensures var rec := CreateAuditEntry(h, now, "PRIM", pattern, context).ToAuditRecord();
      rec["primitive_ref"][..4] == "PRIM"
  {
  }
}
