# pyschemia-crypto validation core, in Dafny

This project models the validation pipeline of `pyschemia-crypto` and proves
properties of the model. The pipeline has three parts.

- **Canonicalisation.** `normalize_primitive_input` strips the input. It
  applies the ordered `ENCODING_MAPPINGS` table with Python's single-pass
  `str.replace`. It upper-cases the algorithm part before the first colon,
  and the digest after it when the digest is a hex string. Finally it
  rewrites `LETTERS[-_]?DIGITS` to `LETTERS-DIGITS`.
- **Enforcement.** The legacy RSA-2048 and stable RSA-3072 enforcers give
  a `ValidationResult`. The first rule that fires wins: the pattern shape,
  then the allowed contexts, then the legacy-production check or the
  compatibility matrix.
- **Audit.** The audit node keeps only `PRIM_`/`PAT_` prefixed, truncated
  hash references, serialises them to a record, and re-checks them against
  the originals.

Modules, one per source file, plus shared and supporting modules:

| module | models |
|---|---|
| `PyStr` (`pystr.dfy`) | the Python `str` operations used: `strip`, `replace`, `upper`/`lower` |
| `Normalization` (`normalize.dfy`) | `common/normalize.py` |
| `NormalizeExamples` (`normalize_examples.dfy`) | the inputs of the normalisation tests and the edge cases they reach |
| `Automaton` (`automaton.dfy`) | the `ValidationResult` enumeration of `common/automaton.py` |
| `Enforcers` (`enforcers.dfy`) | the abstract `PatternEnforcer` of `common/automaton.py` |
| `Profile` (`profile.dfy`) | the configuration dataclass and its compiled pattern |
| `LegacyRsa2048Config`, `StableRsa3072Config` | the two `config.py` files |
| `LegacyRsa2048Pattern`, `StableRsa3072Pattern` | the two `pattern.py` files |
| `Audit` (`audit.dfy`) | `common/audit.py` |
| `Pipeline` (`pipeline.dfy`) | normalisation followed by enforcement, as the security-invariant test drives them |

`normalize_primitive_input` is modelled twice:
- a `method` whose loop reassigns the string once per table row, as the
  source does;
- the function `Normalize`, which the method is proved to compute.

The properties are lemmas about `Normalize`.

### Where the code and its stated design differ

The model follows the code. The lemmas below show where the code does
something other than what its documentation or its tests state.

- **Canonical equivalence.** The delimiter rewrite also applies to the
  digest. Each of the five rows of the canonical-normalisation test
  normalises to `RSA-3072:ABC-123`, not to the `RSA-3072:ABC123` the rows
  expect (`NormalizeExamples.CanonicalRows`).
- **Idempotence.** Normalisation is stated to be idempotent, but it is not.
  `00xx` normalises to `0x`, and `0x` normalises to the empty string
  (`NormalizeExamples.NotIdempotent`). The delimiter rewrite on its own is
  idempotent (`Normalization.StandardizeIdempotent`).
- **Audit non-disclosure.** The record is stated never to contain the raw
  digest. It does when the digest is a piece of the fixed prefix, such as
  `PRIM` (`Audit.ShortDigestAppears`).
- **Legacy production check.** In the legacy enforcer,
  `REJECT_DEPRECATED_SECURITY` can never be returned. `production` is not an
  allowed context, so the context check fires first
  (`LegacyRsa2048Pattern.NeverDeprecated`). The legacy-security test expects
  that verdict.
- **Stable compatibility check.** With the shipped all-true matrix, the
  stable enforcer's `REJECT_INCOMPATIBLE_VERSION` branch is dead. It is live
  for other matrices (`StableRsa3072Pattern.ShippedNeverIncompatible`,
  `StableRsa3072Pattern.IncompatibleReachable`).
- **Encoding invariance and digits in the digest.** For any hex digest, the
  three spellings still agree after normalisation
  (`NormalizeExamples.HexEncodingsAgree`). But the delimiter rewrite also
  reaches into the digest. A 768-character digest that starts with a letter
  followed by a digit is accepted as given, yet after normalisation a `-`
  sits after its first letter, so it is rejected as an unknown pattern
  (`Pipeline.NormalizationRejectsAccepted`, with the sample `a1` followed by
  766 `a`s).

## Model

Source paths are relative to the repository root.

| member | source | states |
|---|---|---|
| PyStr.Upper | pyschemia-crypto/pyschemia_crypto/common/normalize.py:51 | `upper()`: same length, no lower-case letter left, each character unchanged or a lower-case letter made upper-case |
| PyStr.Strip | pyschemia-crypto/pyschemia_crypto/common/normalize.py:42 | `strip()`: the result is an infix that neither starts nor ends with whitespace, and everything cut on either side is whitespace |
| PyStr.StripUnpadded | pyschemia-crypto/pyschemia_crypto/common/normalize.py:42 | stripping a string without leading or trailing whitespace changes nothing |
| PyStr.StripPadded | pyschemia-crypto/pyschemia_crypto/common/normalize.py:42 | stripping whitespace padding from both sides of an unpadded string gives that string back |
| PyStr.ReplaceAllChars | pyschemia-crypto/pyschemia_crypto/common/normalize.py:45-46 | every character of a `replace` result comes from the input or from the replacement |
| PyStr.ReplaceAllRemovesChar | pyschemia-crypto/pyschemia_crypto/common/normalize.py:45-46 | replacing a single character by text without it leaves no occurrence of it |
| PyStr.ReplaceAllAbsent | pyschemia-crypto/pyschemia_crypto/common/normalize.py:45-46 | when a character of the pattern never occurs in the input, `replace` is the identity |
| PyStr.ReplaceAllCount | pyschemia-crypto/pyschemia_crypto/common/normalize.py:45-46 | a character outside the pattern and the replacement keeps its number of occurrences |
| PyStr.ReplaceCharConcat | pyschemia-crypto/pyschemia_crypto/common/normalize.py:45-46 | replacing one character distributes over concatenation |
| PyStr.ReplaceSingle | pyschemia-crypto/pyschemia_crypto/common/normalize.py:45-46 | a character that occurs once is replaced there and the rest is kept |
| PyStr.ReplaceAllKeepsPrefix | pyschemia-crypto/pyschemia_crypto/common/normalize.py:45-46 | a two-character pattern cannot match inside or across the end of a prefix that lacks its second character and does not end in its first |
| PyStr.ReplaceAllSinglePass | pyschemia-crypto/pyschemia_crypto/common/normalize.py:45-46 | `replace` makes one pass: `"00xx".replace("0x", "")` is `"0x"`, which still contains the pattern |
| Normalization.EncodingMappingsUnrolled | pyschemia-crypto/pyschemia_crypto/common/normalize.py:12-24 | the table is applied in insertion order: `_`→`-`, then space, tab, newline, `0x`, `0X` removed |
| Normalization.ApplyMappingsStep | pyschemia-crypto/pyschemia_crypto/common/normalize.py:45-46 | one more turn of the loop over the table applies the next row's `replace` to what the earlier rows left |
| Normalization.Phase1NoErased | pyschemia-crypto/pyschemia_crypto/common/normalize.py:45-46 | after phase 1 no `_`, space, tab or newline remains |
| Normalization.Phase1ColonCount | pyschemia-crypto/pyschemia_crypto/common/normalize.py:45-46 | phase 1 keeps the number of colons |
| Normalization.StripColonCount | pyschemia-crypto/pyschemia_crypto/common/normalize.py:42 | stripping keeps the number of colons |
| Normalization.HexStringNewline | pyschemia-crypto/pyschemia_crypto/common/normalize.py:64-68 | `is_hex_string` on hex text is true exactly when the text is non-empty, with or without one final newline (Python's `$`); a lone newline is not hex |
| Normalization.IsHexStringIff | pyschemia-crypto/pyschemia_crypto/common/normalize.py:64-68 | `is_hex_string` holds exactly for a non-empty run of hex characters, optionally followed by one newline |
| Normalization.FirstColon | pyschemia-crypto/pyschemia_crypto/common/normalize.py:50 | the index of a colon with no colon before it |
| Normalization.SplitFirstColon | pyschemia-crypto/pyschemia_crypto/common/normalize.py:50 | `split(":", 1)`: the input is the two parts joined by a colon, and the first part has no colon |
| Normalization.NormalizeCase | pyschemia-crypto/pyschemia_crypto/common/normalize.py:49-57 | without a colon nothing changes; with one, the part before the first colon is upper-cased, and the part after it is upper-cased exactly when it is a hex string |
| Normalization.CaseAroundColon | pyschemia-crypto/pyschemia_crypto/common/normalize.py:49-57 | `a:d` with a colon-free `a` folds to `A:` followed by `d` upper-cased when it is a hex string, else `d` |
| Normalization.NormalizeCaseNoLower | pyschemia-crypto/pyschemia_crypto/common/normalize.py:49-57 | after case folding no lower-case letter is left before the first colon |
| Normalization.RewritePlain | pyschemia-crypto/pyschemia_crypto/common/normalize.py:73 | a character that is not an upper-case letter is copied and the scan moves on |
| Normalization.RewriteDigits | pyschemia-crypto/pyschemia_crypto/common/normalize.py:73 | a maximal `LETTERS DIGITS` match becomes `LETTERS-DIGITS` |
| Normalization.RewriteSepDigits | pyschemia-crypto/pyschemia_crypto/common/normalize.py:73 | a maximal `LETTERS-DIGITS` or `LETTERS_DIGITS` match becomes `LETTERS-DIGITS` |
| Normalization.RewriteSkip | pyschemia-crypto/pyschemia_crypto/common/normalize.py:73 | an upper-case run with no digit after it, even past one separator, is copied |
| Normalization.DelimiterSpellings | pyschemia-crypto/pyschemia_crypto/common/normalize.py:72-73 | `RSA3072`, `RSA_3072` and `RSA-3072` spellings all become `LETTERS-DIGITS` |
| Normalization.UpperRunMaximal | pyschemia-crypto/pyschemia_crypto/common/normalize.py:73 | the `[A-Z]+` run measured is all upper-case and maximal |
| Normalization.DigitRunMaximal | pyschemia-crypto/pyschemia_crypto/common/normalize.py:73 | the `\d+` run measured is all digits and maximal |
| Normalization.StandardizeDelimiters | pyschemia-crypto/pyschemia_crypto/common/normalize.py:70-74 | the rewrite never shortens its input |
| Normalization.StandardizeKeepsNonSeps | pyschemia-crypto/pyschemia_crypto/common/normalize.py:73 | the rewrite only inserts, drops or changes `-`/`_`: with separators deleted, output and input are equal |
| Normalization.StandardizeChars | pyschemia-crypto/pyschemia_crypto/common/normalize.py:73 | every output character is `-` or a character of the input |
| Normalization.StandardizeNoLower | pyschemia-crypto/pyschemia_crypto/common/normalize.py:73 | the rewrite keeps the part before the first colon free of lower-case letters |
| Normalization.StandardFixed | pyschemia-crypto/pyschemia_crypto/common/normalize.py:73 | a string with no `[A-Z]` directly followed by a digit or by `_` and a digit is left unchanged |
| Normalization.FixedStandard | pyschemia-crypto/pyschemia_crypto/common/normalize.py:73 | a string the rewrite leaves unchanged has that standard form |
| Normalization.StandardizeIsStandard | pyschemia-crypto/pyschemia_crypto/common/normalize.py:73 | every output of the rewrite is in standard form |
| Normalization.StandardizeFixedIff | pyschemia-crypto/pyschemia_crypto/common/normalize.py:73 | the rewrite's fixed points are exactly the standard-form strings |
| Normalization.StandardizeIdempotent | pyschemia-crypto/pyschemia_crypto/common/normalize.py:70-74 | `standardize_delimiters` is idempotent |
| Normalization.Normalize | pyschemia-crypto/pyschemia_crypto/common/normalize.py:26-62 | the empty string is returned as it is; a non-empty input normalises to text without `_`, space, tab or newline; normalising keeps the number of colons |
| Normalization.ColonPresence | pyschemia-crypto/pyschemia_crypto/common/normalize.py:49-60 | phases 2-4 produce a colon exactly when their input has one |
| Normalization.NormalizeAlgorithmUpper | pyschemia-crypto/pyschemia_crypto/common/normalize.py:42-62 | when the output has a colon, the algorithm part before it has no lower-case letter |
| Normalization.NormalizePrimitiveInput | pyschemia-crypto/pyschemia_crypto/common/normalize.py:26-62 | the loop over the table, split, upper-casing and rewrite compute `Normalize`; empty in, empty out; no erased characters; same colon count; upper-case algorithm part |
| NormalizeExamples.PlainMappings | pyschemia-crypto/pyschemia_crypto/common/normalize.py:45-46 | text with none of `_`, whitespace, `x`, `X` goes through the table unchanged |
| NormalizeExamples.HexRowsOnly | pyschemia-crypto/pyschemia_crypto/common/normalize.py:45-46 | on text without `_` or whitespace only the `0x` and `0X` rows act |
| NormalizeExamples.PlainNormalize | pyschemia-crypto/pyschemia_crypto/common/normalize.py:42-60 | for such unpadded text normalising is case folding then the rewrite |
| NormalizeExamples.UpperHexDigest | pyschemia-crypto/pyschemia_crypto/common/normalize.py:55 | upper-casing hex letters then digits gives `A`-`F` letters and the same digits |
| NormalizeExamples.AlgorithmUpper | pyschemia-crypto/pyschemia_crypto/common/normalize.py:51 | `rsa-3072`/`RSA-3072` fold to `RSA-3072`, `rsa3072` to `RSA3072` |
| NormalizeExamples.HexAfterColon | pyschemia-crypto/pyschemia_crypto/common/normalize.py:49-57 | `a:d` with a hex `d` folds to `A:D` |
| NormalizeExamples.CanonicalHexDigest | pyschemia-crypto/pyschemia_crypto/common/normalize.py:73 | `RSA-3072:` followed by `A`-`F` letters is left alone by the rewrite |
| NormalizeExamples.FoldedRewrite | pyschemia-crypto/pyschemia_crypto/common/normalize.py:73 | `LETTERS[-]DIGITS:` followed by hex letters and digits gets a `-` in the algorithm and another in the digest |
| NormalizeExamples.RowTail | pyschemia-crypto/pyschemia_crypto/common/normalize.py:73 | `RSA-3072:LD` and `RSA3072:LD` (hex letters `L`, digits `D`) rewrite to `RSA-3072:L-D` |
| NormalizeExamples.RowFromPhaseOne | pyschemia-crypto/pyschemia_crypto/common/normalize.py:49-60 | the test spellings of the algorithm with a letters-then-digits digest end as `RSA-3072:L-D` |
| NormalizeExamples.SpellingCase | pyschemia-crypto/pyschemia_crypto/common/normalize.py:49-57 | `rsa-3072:d`/`RSA-3072:d` with hex letters `d` fold to `RSA-3072:D` |
| NormalizeExamples.FromPhaseOne | pyschemia-crypto/pyschemia_crypto/common/normalize.py:49-60 | and the rewrite then leaves `RSA-3072:D` alone |
| NormalizeExamples.PlainSpelling | pyschemia-crypto/pyschemia_crypto/common/normalize.py:39-62 | `rsa-3072:d` and `RSA-3072:d` normalise to `RSA-3072:D` |
| NormalizeExamples.UnderscorePhaseOne | pyschemia-crypto/pyschemia_crypto/common/normalize.py:45-46 | phase 1 turns `RSA_3072:d` into `RSA-3072:d` |
| NormalizeExamples.UnderscoreSpelling | pyschemia-crypto/pyschemia_crypto/common/normalize.py:39-62 | `RSA_3072:d` normalises to `RSA-3072:D` |
| NormalizeExamples.EncodingVariantsAgree | pyschemia-crypto/pyschemia_crypto/tests/test_normalization.py:32-40 | the three encodings of a hex-letter digest normalise to the same `RSA-3072:D` |
| NormalizeExamples.CanonicalPrefixRewrite | pyschemia-crypto/pyschemia_crypto/common/normalize.py:73 | the rewrite leaves the `RSA-3072:` prefix alone and then goes on with what follows the colon |
| NormalizeExamples.HexEncodingsAgree | pyschemia-crypto/pyschemia_crypto/tests/test_normalization.py:32-40 | for any non-empty hex digest, digits included, the three encodings normalise to one string: `RSA-3072:` followed by the digest upper-cased and put through the delimiter rewrite |
| NormalizeExamples.PlainRow | pyschemia-crypto/pyschemia_crypto/common/normalize.py:39-62 | `rsa-3072:LD` and `rsa3072:LD` normalise to `RSA-3072:L-D` |
| NormalizeExamples.UnderscoreRow | pyschemia-crypto/pyschemia_crypto/common/normalize.py:39-62 | `RSA_3072:LD` normalises to `RSA-3072:L-D` |
| NormalizeExamples.HexPrefixDropped | pyschemia-crypto/pyschemia_crypto/common/normalize.py:22 | the `0x` row removes a leading `0x` from a digest without `x` |
| NormalizeExamples.HexPrefixPhaseOne | pyschemia-crypto/pyschemia_crypto/common/normalize.py:45-46 | phase 1 turns `RSA-3072:0xd` into `RSA-3072:d`; the `0` of `3072` is not followed by `x` |
| NormalizeExamples.HexPrefixRow | pyschemia-crypto/pyschemia_crypto/common/normalize.py:39-62 | `RSA-3072:0xLD` normalises to `RSA-3072:L-D` |
| NormalizeExamples.PaddedRow | pyschemia-crypto/pyschemia_crypto/common/normalize.py:39-62 | `  rsa-3072:LD  ` normalises to `RSA-3072:L-D` |
| NormalizeExamples.CanonicalRows | pyschemia-crypto/pyschemia_crypto/tests/test_normalization.py:13-23 | all five test rows normalise to `RSA-3072:ABC-123`, which differs from the `RSA-3072:ABC123` they expect |
| NormalizeExamples.NoUpperUnchanged | pyschemia-crypto/pyschemia_crypto/common/normalize.py:73 | text without upper-case letters is left alone by the rewrite |
| NormalizeExamples.DoubleHexPrefixPhase1 | pyschemia-crypto/pyschemia_crypto/common/normalize.py:42-46 | phase 1 turns `00xx` into `0x` |
| NormalizeExamples.DoubleHexPrefix | pyschemia-crypto/pyschemia_crypto/common/normalize.py:39-62 | `00xx` normalises to `0x` |
| NormalizeExamples.BareHexPrefix | pyschemia-crypto/pyschemia_crypto/common/normalize.py:39-62 | `0x` normalises to the empty string |
| NormalizeExamples.NotIdempotent | pyschemia-crypto/pyschemia_crypto/common/normalize.py:26-62 | normalising `00xx` twice differs from normalising it once |
| NormalizeExamples.SpacedReplacements | pyschemia-crypto/pyschemia_crypto/common/normalize.py:46 | `"0 x".replace(" ", "")` is `0x`; `"0 x".replace("0x", "")` is `0 x` |
| NormalizeExamples.TableOrderMatters | pyschemia-crypto/pyschemia_crypto/common/normalize.py:12-24 | in table order `0 x` becomes empty; with the `0x` row first it becomes `0x` |
| NormalizeExamples.SpacedHexPrefix | pyschemia-crypto/pyschemia_crypto/common/normalize.py:39-62 | `0 x` normalises to the empty string |
| Automaton.FromValue | pyschemia-crypto/pyschemia_crypto/common/automaton.py:13-22 | lookup by value returns a case only when that case has the value |
| Automaton.ValueRoundTrip | pyschemia-crypto/pyschemia_crypto/common/automaton.py:13-22 | lookup by value inverts `value`, and a value names exactly one case |
| Automaton.EightCases | pyschemia-crypto/pyschemia_crypto/common/automaton.py:13-22 | eight cases, each listed once |
| Automaton.ValuesDistinct | pyschemia-crypto/pyschemia_crypto/common/automaton.py:13-22 | two cases have the same value exactly when they are the same case |
| Automaton.ValueIsLowerName | pyschemia-crypto/pyschemia_crypto/common/automaton.py:13-22 | each value is its name lower-cased |
| Automaton.AcceptRejectSplit | pyschemia-crypto/pyschemia_crypto/common/automaton.py:13-22 | each case is an `ACCEPT_` or a `REJECT_` case, never both; the first four accept |
| Enforcers.Enforcer.EnforcePrimitivePattern | pyschemia-crypto/pyschemia_crypto/common/automaton.py:31-45 | the chosen family's verdict is one of the five the two families can give, and an unknown pattern exactly when the digest does not match the family's canonical pattern |
| Enforcers.Shipped | pyschemia-crypto/pyschemia_crypto/common/automaton.py:24-55 | one enforcer of each concrete class over its default profile: RSA-2048 at `legacy` with a 512-digit shape, RSA-3072 at `stable` with a 768-digit shape |
| Enforcers.ShippedSecurityLevels | pyschemia-crypto/pyschemia_crypto/common/automaton.py:52-55 | each shipped enforcer reports `legacy`, `stable` or `experimental` |
| Enforcers.Verdicts | pyschemia-crypto/pyschemia_crypto/common/automaton.py:31-45 | every enforcer accepts only with `ACCEPT_VALIDATED`, never answers `REJECT_DEPRECATED_SECURITY`, and rejects an unmatched digest as an unknown pattern |
| Profile.MatchesIff | pyschemia-crypto/pyschemia_crypto/legacy/rsa_2048/config.py:18 | `pattern.match` accepts exactly the prefix, `count` hex characters, and one optional final newline |
| Profile.WrongPrefixRejected | pyschemia-crypto/pyschemia_crypto/legacy/rsa_2048/config.py:18 | a string without the prefix never matches |
| Profile.DecimalString | pyschemia-crypto/pyschemia_crypto/legacy/rsa_2048/config.py:31 | the repetition count is written as non-empty decimal digits |
| Profile.DecimalRoundTrip | pyschemia-crypto/pyschemia_crypto/legacy/rsa_2048/config.py:31 | reading the written count back gives the count |
| LegacyRsa2048Config.PatternAgreesWithConstants | pyschemia-crypto/pyschemia_crypto/legacy/rsa_2048/config.py:16-31 | the compiled pattern is `CANONICAL_PATTERN` anchored, its count is `digest_length` 512, its prefix the algorithm and a colon |
| LegacyRsa2048Config.ShapeAccepts | pyschemia-crypto/pyschemia_crypto/legacy/rsa_2048/config.py:18 | `RSA-2048:d` matches exactly when `d` is 512 hex characters, optionally with a final newline |
| LegacyRsa2048Config.ContextsExcludeProduction | pyschemia-crypto/pyschemia_crypto/legacy/rsa_2048/config.py:33-37 | three allowed contexts, `production` not among them |
| LegacyRsa2048Config.MatrixEntries | pyschemia-crypto/pyschemia_crypto/legacy/rsa_2048/config.py:23-28 | the matrix grants `legacy`, `stable`, `modern`, refuses `experimental`, and has no other key |
| StableRsa3072Config.PatternAgreesWithConstants | pyschemia-crypto/pyschemia_crypto/stable/rsa_3072/config.py:16-31 | the compiled pattern is `CANONICAL_PATTERN` anchored, its count is `digest_length` 768, its prefix the algorithm and a colon |
| StableRsa3072Config.ShapeAccepts | pyschemia-crypto/pyschemia_crypto/stable/rsa_3072/config.py:18 | `RSA-3072:d` matches exactly when `d` is 768 hex characters, optionally with a final newline |
| StableRsa3072Config.MatrixEntries | pyschemia-crypto/pyschemia_crypto/stable/rsa_3072/config.py:23-28 | the matrix grants all four levels and has no other key |
| LegacyRsa2048Pattern.PatternEnforcer.EnforcePrimitivePattern | pyschemia-crypto/pyschemia_crypto/legacy/rsa_2048/pattern.py:18-37 | the verdict is one of four, and it is an unknown pattern exactly when the digest does not match |
| LegacyRsa2048Pattern.New | pyschemia-crypto/pyschemia_crypto/legacy/rsa_2048/pattern.py:15-45 | the default enforcer reports `legacy` from `get_security_level` and the `RSA-2048:`/512 shape from `get_canonical_pattern` |
| LegacyRsa2048Pattern.Decision | pyschemia-crypto/pyschemia_crypto/legacy/rsa_2048/pattern.py:26-37 | unmatched: unknown pattern; matched outside the allowed contexts: violation; matched inside: accepted |
| LegacyRsa2048Pattern.NeverDeprecated | pyschemia-crypto/pyschemia_crypto/legacy/rsa_2048/pattern.py:34-35 | `REJECT_DEPRECATED_SECURITY` is never returned |
| LegacyRsa2048Pattern.ProductionIsViolation | pyschemia-crypto/pyschemia_crypto/legacy/rsa_2048/pattern.py:30-35 | a well-formed digest in `production` is a context violation |
| LegacyRsa2048Pattern.AcceptIff | pyschemia-crypto/pyschemia_crypto/legacy/rsa_2048/pattern.py:26-37 | accepted exactly when the digest matches and the context is allowed |
| LegacyRsa2048Pattern.UnnormalisedRejected | pyschemia-crypto/pyschemia_crypto/legacy/rsa_2048/pattern.py:26-27 | a lower-case prefix, or `INVALID-PATTERN:xyz123`, is an unknown pattern |
| LegacyRsa2048Pattern.SampleDigest | pyschemia-crypto/pyschemia_crypto/tests/test_patterns.py:33-40 | `RSA-2048:` and 512 `a` is accepted for audit verification and a context violation in `invalid_context` |
| LegacyRsa2048Pattern.TrailingNewlineAccepted | pyschemia-crypto/pyschemia_crypto/legacy/rsa_2048/pattern.py:26-27 | the sample digest followed by a newline is accepted too |
| StableRsa3072Pattern.RequiredLevel | pyschemia-crypto/pyschemia_crypto/stable/rsa_3072/pattern.py:48-54 | production deployment needs `stable`, legacy migration `legacy`, key generation `modern`, and any context outside the map `stable` |
| StableRsa3072Pattern.PatternEnforcer.ValidateCompatibility | pyschemia-crypto/pyschemia_crypto/stable/rsa_3072/pattern.py:46-55 | key generation is compatible exactly when the matrix marks `modern` true, legacy migration exactly when it marks `legacy` true, and every other context exactly when it marks `stable` true; a missing level is incompatible |
| StableRsa3072Pattern.PatternEnforcer.EnforcePrimitivePattern | pyschemia-crypto/pyschemia_crypto/stable/rsa_3072/pattern.py:17-36 | the verdict is one of four, and it is an unknown pattern exactly when the digest does not match |
| StableRsa3072Pattern.New | pyschemia-crypto/pyschemia_crypto/stable/rsa_3072/pattern.py:14-44 | the default enforcer reports `stable` from `get_security_level` and the `RSA-3072:`/768 shape from `get_canonical_pattern` |
| StableRsa3072Pattern.MappedContextsAllowed | pyschemia-crypto/pyschemia_crypto/stable/rsa_3072/pattern.py:48-54 | every context the map names is an allowed one, and there are five allowed contexts |
| StableRsa3072Pattern.Decision | pyschemia-crypto/pyschemia_crypto/stable/rsa_3072/pattern.py:24-36 | for any matrix: unknown pattern, violation, and both directions of incompatible and accepted |
| StableRsa3072Pattern.ShippedNeverIncompatible | pyschemia-crypto/pyschemia_crypto/stable/rsa_3072/pattern.py:33-34 | with the shipped matrix a matched digest in an allowed context is accepted, and incompatibility never occurs |
| StableRsa3072Pattern.IncompatibleReachable | pyschemia-crypto/pyschemia_crypto/stable/rsa_3072/pattern.py:33-34 | with a matrix lacking `modern`, key generation is incompatible |
| StableRsa3072Pattern.SampleDigest | pyschemia-crypto/pyschemia_crypto/tests/test_patterns.py:16-26 | `RSA-3072:` and 768 `b` is accepted for audit verification |
| Audit.PrimitiveRef | pyschemia-crypto/pyschemia_crypto/common/audit.py:44-49 | `PRIM_` and the 16-character hash: 21 characters |
| Audit.PatternRef | pyschemia-crypto/pyschemia_crypto/common/audit.py:45-50 | `PAT_` and the 16-character hash: 20 characters |
| Audit.CreateAuditEntry | pyschemia-crypto/pyschemia_crypto/common/audit.py:28-52 | the node holds the two references, the context, the clock reading and the default compliance level |
| Audit.SecureAuditNode.ToAuditRecord | pyschemia-crypto/pyschemia_crypto/common/audit.py:54-67 | the record has exactly the five mandatory keys |
| Audit.FromAuditRecord | pyschemia-crypto/pyschemia_crypto/common/audit.py:54-67 | a record reads back into a node exactly when it has all five keys |
| Audit.RecordRoundTrip | pyschemia-crypto/pyschemia_crypto/common/audit.py:54-67 | each key carries its field, and reading the record back gives the node |
| Audit.EntryRecordShape | pyschemia-crypto/pyschemia_crypto/common/audit.py:28-67 | a new entry's record holds `PRIM_` and 16 hex characters, `PAT_` and 16 hex characters, the context and `OBINexus-v1.0` |
| Audit.IntegrityRoundTrip | pyschemia-crypto/pyschemia_crypto/common/audit.py:69-86 | an entry checks out against the originals it was made from |
| Audit.IntegrityIff | pyschemia-crypto/pyschemia_crypto/common/audit.py:69-86 | an entry checks out against other values exactly when their truncated hashes equal the originals' |
| Audit.OnlyHashesKept | pyschemia-crypto/pyschemia_crypto/common/audit.py:28-52 | the node depends on digest and pattern only through their truncated hashes |
| Audit.ShortDigestAppears | pyschemia-crypto/pyschemia_crypto/common/audit.py:28-67 | the digest `PRIM` occurs in every record made from it |
| Pipeline.UpperRepeat | pyschemia-crypto/pyschemia_crypto/common/normalize.py:55 | upper-casing `c * n` gives `C * n` |
| Pipeline.CanonicalAccepted | pyschemia-crypto/pyschemia_crypto/stable/rsa_3072/pattern.py:24-36 | `RSA-3072:` and 768 `A`-`F` letters is accepted for audit verification |
| Pipeline.SecurityInvariant | pyschemia-crypto/pyschemia_crypto/tests/test_normalization.py:25-46 | for a 768-letter hex digest the three encodings get one verdict after normalisation, and it is `ACCEPT_VALIDATED` |
| Pipeline.SecurityInvariantSample | pyschemia-crypto/pyschemia_crypto/tests/test_normalization.py:32-46 | the same for the test's own `"a" * 768` |
| Pipeline.ShortDigestRejected | pyschemia-crypto/pyschemia_crypto/stable/rsa_3072/pattern.py:25-26 | a non-empty digest of fewer than 768 letters `a`-`f` is an unknown pattern under each of the three spellings `RSA-3072:`, `rsa-3072:`, `RSA_3072:` |
| Pipeline.SecurityInvariantHex | pyschemia-crypto/pyschemia_crypto/tests/test_normalization.py:25-46 | for any non-empty hex digest, digits included, the three encodings get one verdict: the enforcer's answer on `RSA-3072:` and the rewritten upper-cased digest |
| Pipeline.NormalizationRejectsAccepted | pyschemia-crypto/pyschemia_crypto/common/normalize.py:73 | a 768-character hex digest starting with a letter and then a digit is accepted as given, but rejected as an unknown pattern once normalised |
| Pipeline.NormalizationRejectsAcceptedSample | pyschemia-crypto/pyschemia_crypto/common/normalize.py:73 | `a1` followed by 766 `a`s is such a digest |

## Left out

- SHA-256 is not modelled. `hashlib.sha256(...).hexdigest()[:16]` is a parameter `Hash16`: any function whose values are 16 lower-case hex characters. Nothing else about the hash is assumed, in particular not that it is collision-free. So integrity is stated as "the truncated hashes agree".
- The clock is not modelled. `datetime.utcnow()` and `isoformat()` become a `Timestamp` value passed in by the caller.
- Only ASCII text is modelled. For non-ASCII input, Python's `upper()` can change the length of the text, and `\d` and `strip()` recognise Unicode digits and spaces; none of this is modelled.
- The general regular-expression engine is not modelled, only the three patterns the core uses:
  - the anchored `^PREFIX[a-fA-F0-9]{N}$` shape, including `$` before a final newline;
  - `^[a-fA-F0-9]+$`;
  - the `([A-Z]+)[-_]?(\d+)` substitution, written as a scan over maximal upper-case runs.
- The compiled `Pattern` object is kept as its prefix and count (`HexShape`); of its attributes, only the source text is modelled.
- The abstract base class of `common/automaton.py` becomes a closed variant over the two shipped enforcers. Further subclasses are not modelled.
- The enforcers' `config` and the audit node are values. No code in the core updates them after construction, so their mutability is not modelled.
- The `experimental/rsa_4096` package, `setup.py` and the `__init__.py` re-exports are not part of this model.
- The security-invariant test at `tests/test_normalization.py:46` uses `ValidationResult` without importing it. Only the property it means to check is modelled.
- Normalization.StandardizeDelimiters: its own contract states only that the rewrite never shortens its input. What it computes is stated by the lemmas about it: `StandardizeKeepsNonSeps`, `StandardizeChars`, `StandardizeFixedIff` and the `Rewrite*` lemmas.
