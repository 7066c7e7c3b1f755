/**
 * What `normalize_primitive_input` computes on the inputs its test file
 * uses, and the edge cases of the code they lead to: the single pass of
 * `str.replace`, the order of the replacement table, and the delimiter
 * rewrite reaching into the digest.
 *
 * Each lemma about a family of inputs is stated for an arbitrary digest;
 * the concrete strings of the tests are instances of those.
 */
module NormalizeExamples {
  import opened PyStr
  import opened Normalization

  // ----- inputs phase 1 leaves alone -----

  /** Characters no row of `ENCODING_MAPPINGS` touches. */
  predicate Untouched(c: char) {
    c != '_' && c != ' ' && c != '\t' && c != '\n' && c != 'x' && c != 'X'
  }

  predicate AllUntouched(s: string) {
    forall i :: 0 <= i < |s| ==> Untouched(s[i])
  }

  /** A string none of whose characters the table mentions goes through phase 1 unchanged. */
  lemma PlainMappings(s: string)
    requires AllUntouched(s)
    ensures ApplyMappings(s, EncodingMappings) == s
  {
    EncodingMappingsUnrolled(s);
    assert '_' !in s && ' ' !in s && '\t' !in s && '\n' !in s && 'x' !in s && 'X' !in s;
    ReplaceAllAbsent(s, "_", "-", 0);
    ReplaceAllAbsent(s, " ", "", 0);
    ReplaceAllAbsent(s, "\t", "", 0);
    ReplaceAllAbsent(s, "\n", "", 0);
    ReplaceAllAbsent(s, "0x", "", 1);
    ReplaceAllAbsent(s, "0X", "", 1);
  }

  /** On a string without `_` or whitespace, only the `0x` and `0X` rows of the table act. */
  lemma HexRowsOnly(s: string)
    requires NoErased(s)
    ensures ApplyMappings(s, EncodingMappings) == ReplaceAll(ReplaceAll(s, "0x", ""), "0X", "")
  {
    EncodingMappingsUnrolled(s);
    assert '_' !in s && ' ' !in s && '\t' !in s && '\n' !in s;
    ReplaceAllAbsent(s, "_", "-", 0);
    ReplaceAllAbsent(s, " ", "", 0);
    ReplaceAllAbsent(s, "\t", "", 0);
    ReplaceAllAbsent(s, "\n", "", 0);
  }

  /** For such a string without padding, normalising is case folding and the delimiter rewrite. */
  lemma PlainNormalize(s: string)
    requires s != [] && !IsSpace(s[0]) && !IsSpace(s[|s| - 1])
    requires AllUntouched(s)
    ensures Normalize(s) == StandardizeDelimiters(NormalizeCase(s))
  {
    StripUnpadded(s);
    PlainMappings(s);
  }

  /** `a:d` is untouched when `a` and `d` are. */
  lemma JoinUntouched(a: string, d: string)
    requires AllUntouched(a) && AllUntouched(d)
    ensures AllUntouched(a + ":" + d)
  {
    var s := a + ":" + d;
    forall i | 0 <= i < |s| ensures Untouched(s[i]) {
      if i < |a| {
        assert s[i] == a[i];
      } else if i > |a| {
        assert s[i] == d[i - |a| - 1];
      }
    }
  }

  // ----- digests -----

  /** Lower-case hex letters only, as in `"a" * 768`. */
  predicate LowerHexLetters(d: string) {
    forall i :: 0 <= i < |d| ==> 'a' <= d[i] <= 'f'
  }

  predicate Digits(n: string) {
    forall i :: 0 <= i < |n| ==> IsDigit(n[i])
  }

  lemma HexLettersUntouched(d: string)
    requires LowerHexLetters(d)
    ensures AllUntouched(d) && AllHex(d)
  {
  }

  lemma HexDigestUntouched(l: string, n: string)
    requires LowerHexLetters(l) && Digits(n)
    ensures AllUntouched(l + n) && AllHex(l + n)
  {
    var d := l + n;
    forall i | 0 <= i < |d| ensures Untouched(d[i]) && IsHexChar(d[i]) {
      if i < |l| {
        assert d[i] == l[i];
      } else {
        assert d[i] == n[i - |l|];
      }
    }
  }

  /** Upper-casing hex letters gives hex letters, and leaves digits as they are. */
  lemma UpperHexDigest(l: string, n: string)
    requires LowerHexLetters(l) && Digits(n)
    ensures Upper(l + n) == Upper(l) + n
    ensures forall i :: 0 <= i < |Upper(l)| ==> 'A' <= Upper(l)[i] <= 'F'
  {
    var u := Upper(l + n);
    forall i | 0 <= i < |u| ensures u[i] == (Upper(l) + n)[i] {
      if i < |l| {
        assert (l + n)[i] == l[i];
      } else {
        assert (l + n)[i] == n[i - |l|];
      }
    }
  }

  /** `str.upper()` on a literal, character by character. */
  lemma UpperLiteral(s: string, u: string)
    requires |s| == |u|
    requires forall i :: 0 <= i < |s| ==> UpperChar(s[i]) == u[i]
    ensures Upper(s) == u
  {
  }

  // ----- the algorithm part -----

  /** The algorithm spellings the tests use, and what case folding makes of them. */
  function FoldedAlgorithm(a: string): string {
    if a == "rsa3072" then "RSA3072" else "RSA-3072"
  }

  predicate TestAlgorithm(a: string) {
    a == "rsa-3072" || a == "RSA-3072" || a == "rsa3072"
  }

  lemma AlgorithmUpper(a: string)
    requires TestAlgorithm(a)
    ensures Upper(a) == FoldedAlgorithm(a)
    ensures ':' !in a && AllUntouched(a) && !IsSpace(a[0])
  {
    UpperLiteral(a, FoldedAlgorithm(a));
  }

  /** Case folding of `a:d` for a hex digest `d`. */
  lemma HexAfterColon(a: string, d: string)
    requires ':' !in a && IsHexString(d)
    ensures NormalizeCase(a + ":" + d) == Upper(a) + ":" + Upper(d)
  {
    CaseAroundColon(a, d);
  }

  // ----- the delimiter rewrite on the folded forms -----

  lemma CanonicalTail(w: string, u: string, n: string)
    requires w == "RSA-3072"
    ensures w + ":" + u + "-" + n == "RSA-3072:" + u + "-" + n
  {
  }

  lemma CanonicalJoin(x: string, u: string)
    requires x == "RSA-3072"
    ensures x + ":" + u == "RSA-3072:" + u
  {
  }

  /** `RSA-3072:` followed by upper-case hex letters is already in standard form. */
  lemma CanonicalHexDigest(p: string, u: string)
    requires p == "RSA-3072:"
    requires forall i :: 0 <= i < |u| ==> 'A' <= u[i] <= 'F'
    ensures StandardizeDelimiters(p + u) == p + u
  {
    var s := p + u;
    forall i | 0 <= i < |s| ensures CleanAt(s, i) {
      if i >= 9 {
        assert s[i] == u[i - 9];
        if i + 1 < |s| {
          assert s[i + 1] == u[i - 8];
        }
      }
    }
    StandardFixed(s);
  }

  /** The folded algorithm cut into its letters and its digits. */
  lemma AlgorithmPieces(x: string)
    requires x == "RSA-3072" || x == "RSA3072"
    ensures var run, digits := x[..3], x[|x| - 4..];
      && run != [] && (forall i :: 0 <= i < |run| ==> IsUpper(run[i]))
      && digits != [] && (forall i :: 0 <= i < |digits| ==> IsDigit(digits[i]))
      && (x == "RSA-3072" ==> x == run + "-" + digits)
      && (x == "RSA3072" ==> x == run + digits)
      && run + "-" + digits == "RSA-3072"
  {
  }

  lemma TailPieces(w: string, u: string, n: string)
    ensures w + ":" + (u + n) == w + ([':'] + (u + n))
    ensures u + n + [] == u + n
    ensures w + (":" + (u + "-" + n + [])) == w + ":" + u + "-" + n
  {
  }

  /**
   * The rewrite on `LETTERS[-]DIGITS:` followed by hex letters and digits:
   * both the algorithm and the digest get a `-` between letters and digits.
   */
  lemma FoldedRewrite(run: string, digits: string, u: string, n: string)
    requires run != [] && forall i :: 0 <= i < |run| ==> IsUpper(run[i])
    requires digits != [] && Digits(digits)
    requires u != [] && forall i :: 0 <= i < |u| ==> 'A' <= u[i] <= 'F'
    requires n != [] && Digits(n)
    ensures StandardizeDelimiters(run + digits + ":" + (u + n)) == run + "-" + digits + ":" + u + "-" + n
    ensures StandardizeDelimiters(run + "-" + digits + ":" + (u + n)) == run + "-" + digits + ":" + u + "-" + n
  {
    var rest := [':'] + (u + n);
    TailPieces(run + digits, u, n);
    TailPieces(run + "-" + digits, u, n);
    TailPieces(run + "-" + digits, u, n);
    RewritePlain(':', u + n);
    RewriteDigits(u, n, []);
    DelimiterSpellings(run, digits, rest);
  }

  /**
   * The rewrite on a folded test input: the algorithm becomes `RSA-3072`,
   * and the digest's letters and digits are split by a `-` as well.
   */
  lemma RowTail(x: string, u: string, n: string)
    requires x == "RSA-3072" || x == "RSA3072"
    requires u != [] && forall i :: 0 <= i < |u| ==> 'A' <= u[i] <= 'F'
    requires n != [] && Digits(n)
    ensures StandardizeDelimiters(x + ":" + (u + n)) == "RSA-3072:" + u + "-" + n
  {
    AlgorithmPieces(x);
    FoldedRewrite(x[..3], x[|x| - 4..], u, n);
    CanonicalTail(x[..3] + "-" + x[|x| - 4..], u, n);
  }

  /** After phase 1, a test input `a:l n` ends as `RSA-3072:L-n`. */
  lemma RowFromPhaseOne(a: string, l: string, n: string)
    requires TestAlgorithm(a)
    requires l != [] && LowerHexLetters(l) && n != [] && Digits(n)
    ensures StandardizeDelimiters(NormalizeCase(a + ":" + (l + n))) == "RSA-3072:" + Upper(l) + "-" + n
  {
    var d := l + n;
    HexDigestUntouched(l, n);
    AlgorithmUpper(a);
    HexAfterColon(a, d);
    UpperHexDigest(l, n);
    RowTail(FoldedAlgorithm(a), Upper(l), n);
  }

  // ----- the security invariant: three encodings of one digest -----

  lemma SpellingCase(a: string, d: string)
    requires a == "rsa-3072" || a == "RSA-3072"
    requires d != [] && LowerHexLetters(d)
    ensures NormalizeCase(a + ":" + d) == "RSA-3072:" + Upper(d)
  {
    assert IsHexString(d);
    AlgorithmUpper(a);
    HexAfterColon(a, d);
    CanonicalJoin(Upper(a), Upper(d));
  }

  lemma FromPhaseOne(a: string, d: string)
    requires a == "rsa-3072" || a == "RSA-3072"
    requires d != [] && LowerHexLetters(d)
    ensures StandardizeDelimiters(NormalizeCase(a + ":" + d)) == "RSA-3072:" + Upper(d)
  {
    SpellingCase(a, d);
    CanonicalHexDigest("RSA-3072:", Upper(d));
  }

  /** `rsa-3072:d` and `RSA-3072:d` normalise to `RSA-3072:D`. */
  lemma PlainSpelling(a: string, d: string)
    requires a == "rsa-3072" || a == "RSA-3072"
    requires d != [] && LowerHexLetters(d)
    ensures Normalize(a + ":" + d) == "RSA-3072:" + Upper(d)
  {
    AlgorithmUpper(a);
    HexLettersUntouched(d);
    JoinUntouched(a, d);
    var s := a + ":" + d;
    assert s[0] == a[0] && s[|s| - 1] == d[|d| - 1];
    PlainNormalize(s);
    FromPhaseOne(a, d);
  }

  lemma UnderscorePieces(b: string)
    ensures "RSA_3072:" + b == "RSA" + ['_'] + ("3072:" + b)
    ensures "RSA" + "-" + ("3072:" + b) == "RSA-3072:" + b
    ensures "RSA-3072:" + b == "RSA-3072" + ":" + b
  {
  }

  /** Phase 1 turns the `_` of `RSA_3072:` into `-` and touches nothing else. */
  lemma UnderscorePhaseOne(d: string)
    requires AllUntouched(d)
    ensures ApplyMappings("RSA_3072:" + d, EncodingMappings) == "RSA-3072:" + d
  {
    var b := "3072:" + d;
    assert '_' !in b by {
      forall i | 0 <= i < |b| ensures b[i] != '_' {
        if i >= 5 {
          assert b[i] == d[i - 5];
        }
      }
    }
    UnderscorePieces(d);
    ReplaceSingle("RSA", '_', b, "-");
    var t := "RSA-3072:" + d;
    assert AllUntouched(t) by {
      forall i | 0 <= i < |t| ensures Untouched(t[i]) {
        if i >= 9 {
          assert t[i] == d[i - 9];
        }
      }
    }
    assert '_' !in t;
    ReplaceAllAbsent(t, "_", "-", 0);
    PlainMappings(t);
    EncodingMappingsUnrolled("RSA_3072:" + d);
    EncodingMappingsUnrolled(t);
  }

  /** `RSA_3072:d` normalises to `RSA-3072:D`. */
  lemma UnderscoreSpelling(d: string)
    requires d != [] && LowerHexLetters(d)
    ensures Normalize("RSA_3072:" + d) == "RSA-3072:" + Upper(d)
  {
    var s := "RSA_3072:" + d;
    assert s[0] == 'R' && s[|s| - 1] == d[|d| - 1];
    StripUnpadded(s);
    HexLettersUntouched(d);
    UnderscorePhaseOne(d);
    UnderscorePieces(d);
    FromPhaseOne("RSA-3072", d);
  }

  /**
   * The three encodings of one digest of hex letters that the security
   * invariant test feeds in normalise to the same string,
   * `RSA-3072:` followed by the upper-cased digest.
   */
  lemma EncodingVariantsAgree(d: string)
    requires d != [] && LowerHexLetters(d)
    ensures Normalize("RSA-3072:" + d) == "RSA-3072:" + Upper(d)
    ensures Normalize("rsa-3072:" + d) == "RSA-3072:" + Upper(d)
    ensures Normalize("RSA_3072:" + d) == "RSA-3072:" + Upper(d)
  {
    PlainSpelling("RSA-3072", d);
    PlainSpelling("rsa-3072", d);
    SpellingPieces(d);
    UnderscoreSpelling(d);
  }

  lemma SpellingPieces(b: string)
    ensures "RSA-3072" + ":" + b == "RSA-3072:" + b
    ensures "rsa-3072" + ":" + b == "rsa-3072:" + b
  {
  }

  // ----- the canonical-normalisation test rows -----

  /** Hex text holds none of the characters the encoding table rewrites. */
  lemma HexUntouched(d: string)
    requires AllHex(d)
    ensures AllUntouched(d)
  {
  }

  lemma PrefixPieces(run: string, digits: string, u: string)
    requires run == "RSA" && digits == "3072"
    ensures run + "-" + digits + ([':'] + u) == "RSA-3072:" + u
  {
  }

  lemma PrefixRuns(run: string, digits: string)
    requires run == "RSA" && digits == "3072"
    ensures run != [] && forall i :: 0 <= i < |run| ==> IsUpper(run[i])
    ensures digits != [] && forall i :: 0 <= i < |digits| ==> IsDigit(digits[i])
  {
  }

  /**
   * The delimiter rewrite leaves the canonical algorithm name alone and then
   * goes on with whatever follows the colon.
   */
  lemma CanonicalPrefixRewrite(run: string, digits: string, u: string)
    requires run == "RSA" && digits == "3072"
    ensures StandardizeDelimiters("RSA-3072:" + u) == "RSA-3072:" + StandardizeDelimiters(u)
  {
    var rest := [':'] + u;
    PrefixRuns(run, digits);
    DelimiterSpellings(run, digits, rest);
    RewritePlain(':', u);
    PrefixPieces(run, digits, u);
    PrefixPieces(run, digits, StandardizeDelimiters(u));
  }

  lemma HexSpellingCase(a: string, d: string)
    requires a == "rsa-3072" || a == "RSA-3072"
    requires d != [] && AllHex(d)
    ensures NormalizeCase(a + ":" + d) == "RSA-3072:" + Upper(d)
  {
    assert IsHexString(d);
    AlgorithmUpper(a);
    HexAfterColon(a, d);
    CanonicalJoin(Upper(a), Upper(d));
  }

  lemma HexPlainSpelling(a: string, d: string)
    requires a == "rsa-3072" || a == "RSA-3072"
    requires d != [] && AllHex(d)
    ensures Normalize(a + ":" + d) == "RSA-3072:" + StandardizeDelimiters(Upper(d))
  {
    AlgorithmUpper(a);
    HexUntouched(d);
    JoinUntouched(a, d);
    var s := a + ":" + d;
    assert s[0] == a[0] && s[|s| - 1] == d[|d| - 1];
    PlainNormalize(s);
    HexSpellingCase(a, d);
    CanonicalPrefixRewrite("RSA", "3072", Upper(d));
  }

  lemma HexUnderscoreSpelling(d: string)
    requires d != [] && AllHex(d)
    ensures Normalize("RSA_3072:" + d) == "RSA-3072:" + StandardizeDelimiters(Upper(d))
  {
    var s := "RSA_3072:" + d;
    assert s[0] == 'R' && s[|s| - 1] == d[|d| - 1];
    StripUnpadded(s);
    HexUntouched(d);
    UnderscorePhaseOne(d);
    UnderscorePieces(d);
    HexSpellingCase("RSA-3072", d);
    CanonicalPrefixRewrite("RSA", "3072", Upper(d));
  }

  /**
   * For any non-empty hex digest, digits included, the three spellings
   * `RSA-3072:`, `rsa-3072:` and `RSA_3072:` normalise to one string: the
   * canonical prefix followed by the digest upper-cased and then put
   * through the delimiter rewrite.
   */
  lemma HexEncodingsAgree(d: string)
    requires d != [] && AllHex(d)
    ensures Normalize("RSA-3072:" + d) == "RSA-3072:" + StandardizeDelimiters(Upper(d))
    ensures Normalize("rsa-3072:" + d) == "RSA-3072:" + StandardizeDelimiters(Upper(d))
    ensures Normalize("RSA_3072:" + d) == "RSA-3072:" + StandardizeDelimiters(Upper(d))
  {
    HexPlainSpelling("RSA-3072", d);
    HexPlainSpelling("rsa-3072", d);
    SpellingPieces(d);
    HexUnderscoreSpelling(d);
  }

  /** Rows `rsa-3072:` and `rsa3072:`: phase 1 changes nothing. */
  lemma PlainRow(a: string, l: string, n: string)
    requires a == "rsa-3072" || a == "rsa3072"
    requires l != [] && LowerHexLetters(l) && n != [] && Digits(n)
    ensures Normalize(a + ":" + (l + n)) == "RSA-3072:" + Upper(l) + "-" + n
  {
    var d := l + n;
    AlgorithmUpper(a);
    HexDigestUntouched(l, n);
    JoinUntouched(a, d);
    var s := a + ":" + d;
    assert s[0] == a[0] && s[|s| - 1] == n[|n| - 1];
    PlainNormalize(s);
    RowFromPhaseOne(a, l, n);
  }

  /** Row `RSA_3072:`: phase 1 turns the `_` into `-`. */
  lemma UnderscoreRow(l: string, n: string)
    requires l != [] && LowerHexLetters(l) && n != [] && Digits(n)
    ensures Normalize("RSA_3072:" + (l + n)) == "RSA-3072:" + Upper(l) + "-" + n
  {
    var d := l + n;
    var s := "RSA_3072:" + d;
    assert s[0] == 'R' && s[|s| - 1] == n[|n| - 1];
    StripUnpadded(s);
    HexDigestUntouched(l, n);
    UnderscorePhaseOne(d);
    UnderscorePieces(d);
    RowFromPhaseOne("RSA-3072", l, n);
  }

  lemma HexPrefixPieces(d: string)
    ensures "RSA-3072:0x" + d == "RSA-3072:" + ("0x" + d)
    ensures ("0x" + d)[..2] == "0x" && ("0x" + d)[2..] == d
    ensures "RSA-3072:" + d == "RSA-3072" + ":" + d
  {
  }

  /** Phase 1 removes the `0x` after the colon; the `0` of `3072` is followed by `7`, not `x`. */
  lemma HexPrefixPhaseOne(p: string, d: string)
    requires p == "RSA-3072:"
    requires AllUntouched(d)
    ensures ApplyMappings(p + ("0x" + d), EncodingMappings) == p + d
  {
    var s := p + ("0x" + d);
    forall i | 0 <= i < |s| ensures !IsErased(s[i]) {
      if i >= 11 {
        assert s[i] == d[i - 11];
      }
    }
    HexRowsOnly(s);
    HexPrefixPieces(d);
    ReplaceAllKeepsPrefix(p, "0x" + d, "0x", "");
    HexPrefixDropped(d);
    var t := p + d;
    forall i | 0 <= i < |t| ensures t[i] != 'X' {
      if i >= 9 {
        assert t[i] == d[i - 9];
      }
    }
    ReplaceAllAbsent(t, "0X", "", 1);
  }

  lemma HexPrefixDropped(d: string)
    requires AllUntouched(d)
    ensures ReplaceAll("0x" + d, "0x", "") == d
  {
    HexPrefixPieces(d);
    assert 'x' !in d;
    ReplaceAllAbsent(d, "0x", "", 1);
    assert "" + d == d;
  }

  /** Row `RSA-3072:0x`: phase 1 drops the `0x`. */
  lemma HexPrefixRow(l: string, n: string)
    requires l != [] && LowerHexLetters(l) && n != [] && Digits(n)
    ensures Normalize("RSA-3072:0x" + (l + n)) == "RSA-3072:" + Upper(l) + "-" + n
  {
    var d := l + n;
    var s := "RSA-3072:0x" + d;
    assert s[0] == 'R' && s[|s| - 1] == n[|n| - 1];
    StripUnpadded(s);
    HexDigestUntouched(l, n);
    HexPrefixPieces(d);
    HexPrefixPhaseOne("RSA-3072:", d);
    RowFromPhaseOne("RSA-3072", l, n);
  }

  /** Row with two spaces on either side: `strip` removes them first. */
  lemma PaddedRow(pad: string, l: string, n: string)
    requires pad == "  "
    requires l != [] && LowerHexLetters(l) && n != [] && Digits(n)
    ensures Normalize(pad + ("rsa-3072" + ":" + (l + n)) + pad) == "RSA-3072:" + Upper(l) + "-" + n
  {
    var d := l + n;
    var s := "rsa-3072" + ":" + d;
    assert s[0] == 'r' && s[|s| - 1] == n[|n| - 1];
    StripPadded(pad, s, pad);
    AlgorithmUpper("rsa-3072");
    HexDigestUntouched(l, n);
    JoinUntouched("rsa-3072", d);
    PlainMappings(s);
    RowFromPhaseOne("rsa-3072", l, n);
  }

  /** The digest of the test rows, cut into its letters and its digits. */
  lemma AbcPieces(l: string, n: string)
    requires l == "abc" && n == "123"
    ensures LowerHexLetters(l) && Digits(n)
    ensures Upper(l) == "ABC"
    ensures "RSA-3072:" + Upper(l) + "-" + n == "RSA-3072:ABC-123"
  {
    UpperLiteral(l, "ABC");
  }

  /**
   * The five rows of the canonical-normalisation test all normalise to
   * `RSA-3072:ABC-123`: the delimiter rewrite also splits the digest's
   * `ABC123`, so none of them gives the `RSA-3072:ABC123` the rows list.
   */
  lemma CanonicalRows(l: string, n: string, pad: string)
    requires l == "abc" && n == "123" && pad == "  "
    ensures Normalize("rsa-3072" + ":" + (l + n)) == "RSA-3072:ABC-123"
    ensures Normalize("RSA_3072:" + (l + n)) == "RSA-3072:ABC-123"
    ensures Normalize("rsa3072" + ":" + (l + n)) == "RSA-3072:ABC-123"
    ensures Normalize("RSA-3072:0x" + (l + n)) == "RSA-3072:ABC-123"
    ensures Normalize(pad + ("rsa-3072" + ":" + (l + n)) + pad) == "RSA-3072:ABC-123"
    ensures "RSA-3072:ABC-123" != "RSA-3072:ABC123"
  {
    AbcPieces(l, n);
    PlainRow("rsa-3072", l, n);
    UnderscoreRow(l, n);
    PlainRow("rsa3072", l, n);
    HexPrefixRow(l, n);
    PaddedRow(pad, l, n);
  }

  // ----- single pass and table order -----

  /** A string without upper-case letters is left alone by the delimiter rewrite. */
  lemma NoUpperUnchanged(s: string)
    requires forall i :: 0 <= i < |s| ==> !IsUpper(s[i])
    ensures StandardizeDelimiters(s) == s
  {
    StandardFixed(s);
  }

  /** `00xx` normalises to `0x`: one pass of `replace` removes only the inner `0x`. */
  lemma DoubleHexPrefix(s: string)
    requires s == "00xx"
    ensures Normalize(s) == "0x"
  {
    DoubleHexPrefixPhase1(s);
    var p1 := ApplyMappings(Strip(s), EncodingMappings);
    assert ':' !in p1;
    NoUpperUnchanged(p1);
  }

  lemma DoubleHexPrefixPhase1(s: string)
    requires s == "00xx"
    ensures ApplyMappings(Strip(s), EncodingMappings) == "0x"
  {
    assert s[0] == '0' && s[3] == 'x';
    StripUnpadded(s);
    HexRowsOnly(s);
    ReplaceAllSinglePass();
    ReplaceAllAbsent("0x", "0X", "", 1);
  }

  /** `0x` normalises to the empty string. */
  lemma BareHexPrefix(s: string)
    requires s == "0x"
    ensures Normalize(s) == ""
  {
    assert s[0] == '0' && s[1] == 'x';
    StripUnpadded(s);
    HexRowsOnly(s);
    ReplaceAllSinglePass();
  }

  /**
   * Normalising is not idempotent: normalising the result of `00xx` again
   * changes it.
   */
  lemma NotIdempotent(s: string)
    requires s == "00xx"
    ensures Normalize(Normalize(s)) != Normalize(s)
  {
    DoubleHexPrefix(s);
    BareHexPrefix("0x");
  }

  lemma SpacedPieces(s: string)
    requires s == "0 x"
    ensures s == "0" + [' '] + "x"
    ensures "0" + "" + "x" == "0x"
    ensures s[..2] != "0x" && s[1..][..2] != "0x" && s[1..][1..] == "x"
  {
    assert s[..2][1] == ' ';
    assert s[1..][..2][0] == ' ';
  }

  /** `"0 x".replace(" ", "")` is `0x`, and `"0 x".replace("0x", "")` is `0 x`. */
  lemma SpacedReplacements(s: string)
    requires s == "0 x"
    ensures ReplaceAll(s, " ", "") == "0x"
    ensures ReplaceAll(s, "0x", "") == s
  {
    SpacedPieces(s);
    ReplaceSingle("0", ' ', "x", "");
    assert ReplaceAll(s[1..], "0x", "") == s[1..];
  }

  /**
   * Table order matters: `0 x` loses its space first and then the `0x`,
   * whereas running the `0x` row before the space row leaves `0x`.
   */
  lemma TableOrderMatters(s: string, swapped: seq<(string, string)>)
    requires s == "0 x"
    requires swapped == [("0x", ""), (" ", "")]
    ensures ApplyMappings(s, EncodingMappings) == ""
    ensures ValidTable(swapped) && ApplyMappings(s, swapped) == "0x"
  {
    SpacedReplacements(s);
    EncodingMappingsUnrolled(s);
    ReplaceAllAbsent(s, "_", "-", 0);
    ReplaceAllAbsent("0x", "\t", "", 0);
    ReplaceAllAbsent("0x", "\n", "", 0);
    ReplaceAllSinglePass();
    SwappedTable(s, swapped);
  }

  lemma SwappedTable(s: string, swapped: seq<(string, string)>)
    requires swapped == [("0x", ""), (" ", "")]
    ensures ValidTable(swapped)
    ensures ApplyMappings(s, swapped) == ReplaceAll(ReplaceAll(s, "0x", ""), " ", "")
  {
    assert swapped[..1][..0] == [];
    assert ApplyMappings(s, swapped[..1]) == ReplaceAll(s, "0x", "");
    assert swapped[..2][..1] == swapped[..1];
    assert swapped[..2] == swapped;
  }

  /** Normalising `0 x` gives the empty string. */
  lemma SpacedHexPrefix(s: string)
    requires s == "0 x"
    ensures Normalize(s) == ""
  {
    assert s[0] == '0' && s[2] == 'x';
    StripUnpadded(s);
    TableOrderMatters(s, [("0x", ""), (" ", "")]);
  }
}
