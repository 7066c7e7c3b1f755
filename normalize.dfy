/**
 * The identifier canonicaliser of `common/normalize.py`: strip, an ordered
 * table of literal replacements, case folding around the first colon, and
 * the `LETTERS[-_]?DIGITS` delimiter rewrite.
 */
module Normalization {
  import opened PyStr

  /**
   * `ENCODING_MAPPINGS`, in insertion order (the order in which a Python
   * dict is iterated, and so the order in which the replacements run).
   */
  const EncodingMappings: seq<(string, string)> :=
    [("_", "-"), (" ", ""), ("\t", ""), ("\n", ""), ("0x", ""), ("0X", "")]

  /** Every pattern of a replacement table is non-empty. */
  predicate ValidTable(table: seq<(string, string)>) {
    forall i :: 0 <= i < |table| ==> table[i].0 != []
  }

  /** Runs `s = s.replace(pat, rep)` for each row of `table`, first row first. */
  function ApplyMappings(s: string, table: seq<(string, string)>): string
    requires ValidTable(table)
    decreases |table|
  {
    if table == [] then s
    else ReplaceAll(ApplyMappings(s, table[..|table| - 1]), table[|table| - 1].0, table[|table| - 1].1)
  }

  /** The characters phase 1 removes: `_`, space, tab and newline. */
  predicate IsErased(c: char) {
    c == '_' || c == ' ' || c == '\t' || c == '\n'
  }

  predicate NoErased(s: string) {
    forall i :: 0 <= i < |s| ==> !IsErased(s[i])
  }

  /**
   * `is_hex_string`: `re.match(r'^[a-fA-F0-9]+$', s)` on a non-empty `s`.
   * Python's `$` also matches just before a single trailing newline.
   */
  predicate IsHexString(s: string) {
    && s != []
    && (AllHex(s) || (|s| >= 2 && s[|s| - 1] == '\n' && AllHex(s[..|s| - 1])))
  }

  /**
   * `is_hex_string` on hex text: true exactly when the text is non-empty,
   * and one final newline does not change the answer.
   */
  lemma HexStringNewline(d: string)
    requires AllHex(d)
    ensures IsHexString(d) <==> d != []
    ensures IsHexString(d + "\n") <==> d != []
    ensures !IsHexString("\n")
  {
    assert (d + "\n")[..|d|] == d;
    assert !IsHexChar((d + "\n")[|d|]);
    assert !IsHexChar("\n"[0]);
  }

  /**
   * `is_hex_string` in full: true exactly when the text is a non-empty run
   * of hex digits, possibly followed by one newline.
   */
  lemma IsHexStringIff(s: string)
    ensures IsHexString(s) <==> exists d :: d != [] && AllHex(d) && (s == d || s == d + "\n")
  {
    if IsHexString(s) {
      if AllHex(s) {
        assert s != [] && AllHex(s) && s == s;
      } else {
        var d := s[..|s| - 1];
        assert s == d + "\n";
        assert d != [] && AllHex(d);
      }
    }
    if exists d :: d != [] && AllHex(d) && (s == d || s == d + "\n") {
      var d :| d != [] && AllHex(d) && (s == d || s == d + "\n");
      if s != d {
        assert s[..|s| - 1] == d;
      }
    }
  }

  /** Index of the first colon of `s`. */
  function FirstColon(s: string): (k: nat)
    requires ':' in s
    ensures k < |s| && s[k] == ':'
    ensures ':' !in s[..k]
  {
    if s[0] == ':' then 0
    else
      var k := 1 + FirstColon(s[1..]);
      assert s[..k] == [s[0]] + s[1..][..k - 1];
      k
  }

  /** `s.split(":", 1)` on a string that holds a colon. */
  function SplitFirstColon(s: string): (parts: (string, string))
    requires ':' in s
    ensures s == parts.0 + ":" + parts.1
    ensures ':' !in parts.0
  {
    var k := FirstColon(s);
    assert s == s[..k] + ":" + s[k + 1..];
    (s[..k], s[k + 1..])
  }

  /**
   * Phases 2 and 3: when `s` holds a colon, upper-case the algorithm part
   * before the first colon, and upper-case the digest part after it only
   * when the digest is a hex string.
   */
  function NormalizeCase(s: string): (r: string)
    ensures |r| == |s|
    ensures forall i :: 0 <= i < |s| ==> r[i] == s[i] || (IsLower(s[i]) && IsUpper(r[i]))
    ensures ':' !in s ==> r == s
    ensures ':' in s ==>
              && r[FirstColon(s)] == ':'
              && r[..FirstColon(s)] == Upper(s[..FirstColon(s)])
              && (IsHexString(s[FirstColon(s) + 1..]) ==> r[FirstColon(s) + 1..] == Upper(s[FirstColon(s) + 1..]))
              && (!IsHexString(s[FirstColon(s) + 1..]) ==> r[FirstColon(s) + 1..] == s[FirstColon(s) + 1..])
  {
    if ':' in s then
      var (algorithm, digest) := SplitFirstColon(s);
      var k := FirstColon(s);
      assert algorithm == s[..k] && digest == s[k + 1..];
      var tail := if IsHexString(digest) then Upper(digest) else digest;
      ColonJoinSlices(Upper(algorithm), tail);
      Upper(algorithm) + ":" + tail
    else
      s
  }

  /** The pieces of `x + ":" + y` read back by slicing at `|x|`. */
  lemma ColonJoinSlices(x: string, y: string)
    ensures (x + ":" + y)[|x|] == ':'
    ensures (x + ":" + y)[..|x|] == x && (x + ":" + y)[|x| + 1..] == y
  {
  }

  predicate IsSep(c: char) { c == '-' || c == '_' }

  /** Length of the maximal run of upper-case letters that starts `s`. */
  function UpperRun(s: string): (n: nat)
    ensures n <= |s|
    ensures s != [] && IsUpper(s[0]) ==> n > 0
  {
    if s != [] && IsUpper(s[0]) then 1 + UpperRun(s[1..]) else 0
  }

  /** Length of the maximal run of digits that starts `s`. */
  function DigitRun(s: string): (n: nat)
    ensures n <= |s|
    ensures s != [] && IsDigit(s[0]) ==> n > 0
  {
    if s != [] && IsDigit(s[0]) then 1 + DigitRun(s[1..]) else 0
  }

  /** `UpperRun` is the maximal upper-case prefix. */
  lemma {:induction false} UpperRunMaximal(s: string)
    ensures forall i :: 0 <= i < UpperRun(s) ==> IsUpper(s[i])
    ensures UpperRun(s) < |s| ==> !IsUpper(s[UpperRun(s)])
  {
    if s != [] && IsUpper(s[0]) {
      UpperRunMaximal(s[1..]);
    }
  }

  /** `DigitRun` is the maximal digit prefix. */
  lemma {:induction false} DigitRunMaximal(s: string)
    ensures forall i :: 0 <= i < DigitRun(s) ==> IsDigit(s[i])
    ensures DigitRun(s) < |s| ==> !IsDigit(s[DigitRun(s)])
  {
    if s != [] && IsDigit(s[0]) {
      DigitRunMaximal(s[1..]);
    }
  }

  /** A maximal upper-case prefix of length `n` is the run `UpperRun` measures. */
  lemma {:induction false} UpperRunAt(s: string, n: nat)
    requires n <= |s| && forall i :: 0 <= i < n ==> IsUpper(s[i])
    requires n < |s| ==> !IsUpper(s[n])
    ensures UpperRun(s) == n
    decreases n
  {
    if n > 0 {
      UpperRunAt(s[1..], n - 1);
    }
  }

  /** A maximal digit prefix of length `n` is the run `DigitRun` measures. */
  lemma {:induction false} DigitRunAt(s: string, n: nat)
    requires n <= |s| && forall i :: 0 <= i < n ==> IsDigit(s[i])
    requires n < |s| ==> !IsDigit(s[n])
    ensures DigitRun(s) == n
    decreases n
  {
    if n > 0 {
      DigitRunAt(s[1..], n - 1);
    }
  }

  /**
   * `standardize_delimiters`: `re.sub(r'([A-Z]+)[-_]?(\d+)', r'\1-\2', s)`.
   * A match can only start at the beginning of a maximal upper-case run
   * (backtracking into the run leaves a letter where `[-_]?\d` is needed),
   * and it needs a digit right after the run or after one `-`/`_`; the
   * digit run is then taken whole and the scan resumes after it.
   */
  function StandardizeDelimiters(s: string): (r: string)
    ensures |r| >= |s|
    decreases |s|
  {
    if s == [] then []
    else if !IsUpper(s[0]) then [s[0]] + StandardizeDelimiters(s[1..])
    else
      var q := UpperRun(s);
      var rest := s[q..];
      if rest != [] && IsDigit(rest[0]) then
        var d := DigitRun(rest);
        s[..q] + "-" + rest[..d] + StandardizeDelimiters(rest[d..])
      else if |rest| >= 2 && IsSep(rest[0]) && IsDigit(rest[1]) then
        var d := DigitRun(rest[1..]);
        s[..q] + "-" + rest[1..1 + d] + StandardizeDelimiters(rest[1 + d..])
      else
        s[..q] + StandardizeDelimiters(rest)
  }

  /**
   * `normalize_primitive_input` as a function: the empty string is returned
   * as it is; otherwise strip, replace, fold case, standardise delimiters.
   */
  function Normalize(input: string): (r: string)
    ensures input == [] ==> r == []
    ensures input != [] ==> NoErased(r)
    ensures multiset(r)[':'] == multiset(input)[':']
  {
    if input == [] then input
    else
      var p0 := Strip(input);
      var p1 := ApplyMappings(p0, EncodingMappings);
      var p2 := NormalizeCase(p1);
      Phase1NoErased(p0);
      RewriteNoErased(p2);
      StripColonCount(input);
      Phase1ColonCount(p0);
      CaseColonCount(p1);
      StandardizeColonCount(p2);
      StandardizeDelimiters(p2)
  }

  /**
   * `normalize_primitive_input` as the source writes it: a loop that
   * reassigns `normalized` once per row of the table, then the split,
   * the upper-casing and the delimiter rewrite.
   */
  method NormalizePrimitiveInput(input: string) returns (normalized: string)
    ensures normalized == Normalize(input)
    ensures input == [] ==> normalized == []
    ensures input != [] ==> NoErased(normalized)
    ensures multiset(normalized)[':'] == multiset(input)[':']
    ensures ':' in normalized ==> forall i :: 0 <= i < FirstColon(normalized) ==> !IsLower(normalized[i])
  {
    if input == [] {
      return input;
    }
    normalized := Strip(input);
    var i := 0;
    while i < |EncodingMappings|
      invariant 0 <= i <= |EncodingMappings|
      invariant normalized == ApplyMappings(Strip(input), EncodingMappings[..i])
    {
      var (variant, canonical) := EncodingMappings[i];
      assert EncodingMappings[..i + 1][..i] == EncodingMappings[..i];
      normalized := ReplaceAll(normalized, variant, canonical);
      i := i + 1;
    }
    assert EncodingMappings[..i] == EncodingMappings;
    if ':' in normalized {
      var (algorithm, digest) := SplitFirstColon(normalized);
      algorithm := Upper(algorithm);
      if IsHexString(digest) {
        digest := Upper(digest);
      }
      normalized := algorithm + ":" + digest;
    }
    normalized := StandardizeDelimiters(normalized);
    NormalizeAlgorithmUpper(input);
  }

  // ----- phase 1 -----

  /** The table written out: six nested replacements, `_` first and `0X` last. */
  lemma EncodingMappingsUnrolled(s: string)
    ensures ApplyMappings(s, EncodingMappings) ==
      ReplaceAll(ReplaceAll(ReplaceAll(ReplaceAll(ReplaceAll(ReplaceAll(
        s, "_", "-"), " ", ""), "\t", ""), "\n", ""), "0x", ""), "0X", "")
  {
    var t := EncodingMappings;
    ApplySixRows(s, t);
    assert t[0] == ("_", "-") && t[1] == (" ", "") && t[2] == ("\t", "");
    assert t[3] == ("\n", "") && t[4] == ("0x", "") && t[5] == ("0X", "");
  }

  /** A six-row table applied row by row. */
  lemma ApplySixRows(s: string, t: seq<(string, string)>)
    requires ValidTable(t) && |t| == 6
    ensures ApplyMappings(s, t) ==
      ReplaceAll(ReplaceAll(ReplaceAll(ReplaceAll(ReplaceAll(ReplaceAll(
        s, t[0].0, t[0].1), t[1].0, t[1].1), t[2].0, t[2].1), t[3].0, t[3].1), t[4].0, t[4].1), t[5].0, t[5].1)
  {
    assert t[..0] == [] && t[..6] == t;
    ApplyMappingsStep(s, t, 0);
    ApplyMappingsStep(s, t, 1);
    ApplyMappingsStep(s, t, 2);
    ApplyMappingsStep(s, t, 3);
    ApplyMappingsStep(s, t, 4);
    ApplyMappingsStep(s, t, 5);
  }

  /** Applying the first `k + 1` rows is applying the first `k`, then row `k`. */
  lemma ApplyMappingsStep(s: string, table: seq<(string, string)>, k: nat)
    requires ValidTable(table) && k < |table|
    ensures ApplyMappings(s, table[..k + 1]) == ReplaceAll(ApplyMappings(s, table[..k]), table[k].0, table[k].1)
  {
    assert table[..k + 1][..k] == table[..k];
  }

  /** After phase 1 no `_`, space, tab or newline is left. */
  lemma {:induction false} Phase1NoErased(s: string)
    ensures NoErased(ApplyMappings(s, EncodingMappings))
  {
    EncodingMappingsUnrolled(s);
    var t1 := ReplaceAll(s, "_", "-");
    ReplaceAllRemovesChar(s, '_', "-");
    var t2 := ReplaceAll(t1, " ", "");
    ReplaceAllRemovesChar(t1, ' ', "");
    ReplaceAllKeepsAbsent(t1, " ", "", '_');
    var t3 := ReplaceAll(t2, "\t", "");
    ReplaceAllRemovesChar(t2, '\t', "");
    ReplaceAllKeepsAbsent(t2, "\t", "", '_');
    ReplaceAllKeepsAbsent(t2, "\t", "", ' ');
    var t4 := ReplaceAll(t3, "\n", "");
    ReplaceAllRemovesChar(t3, '\n', "");
    ReplaceAllKeepsAbsent(t3, "\n", "", '_');
    ReplaceAllKeepsAbsent(t3, "\n", "", ' ');
    ReplaceAllKeepsAbsent(t3, "\n", "", '\t');
    var t5 := ReplaceAll(t4, "0x", "");
    ReplaceAllChars(t4, "0x", "");
    var t6 := ReplaceAll(t5, "0X", "");
    ReplaceAllChars(t5, "0X", "");
    forall i | 0 <= i < |t6| ensures !IsErased(t6[i]) {
      assert t6[i] in t5;
      assert t6[i] in t4;
    }
  }

  /** Phase 1 keeps the number of colons. */
  lemma Phase1ColonCount(s: string)
    ensures multiset(ApplyMappings(s, EncodingMappings))[':'] == multiset(s)[':']
  {
    EncodingMappingsUnrolled(s);
    var t1 := ReplaceAll(s, "_", "-");
    ReplaceAllCount(s, "_", "-", ':');
    var t2 := ReplaceAll(t1, " ", "");
    ReplaceAllCount(t1, " ", "", ':');
    var t3 := ReplaceAll(t2, "\t", "");
    ReplaceAllCount(t2, "\t", "", ':');
    var t4 := ReplaceAll(t3, "\n", "");
    ReplaceAllCount(t3, "\n", "", ':');
    var t5 := ReplaceAll(t4, "0x", "");
    ReplaceAllCount(t4, "0x", "", ':');
    ReplaceAllCount(t5, "0X", "", ':');
  }

  /** Stripping removes only whitespace, so it keeps the number of colons. */
  lemma StripColonCount(s: string)
    ensures multiset(Strip(s))[':'] == multiset(s)[':']
  {
    var a := LeadingSpace(s);
    var b := a + |Strip(s)|;
    forall i | 0 <= i < a ensures s[i] != ':' { assert IsSpace(s[i]); }
    forall i | b <= i < |s| ensures s[i] != ':' { assert IsSpace(s[i]); }
    InfixCount(s, a, b, ':');
  }

  /** Cutting off ends that do not hold `c` keeps the number of `c`. */
  lemma InfixCount(s: string, a: nat, b: nat, c: char)
    requires a <= b <= |s|
    requires forall i :: 0 <= i < a ==> s[i] != c
    requires forall i :: b <= i < |s| ==> s[i] != c
    ensures multiset(s[a..b])[c] == multiset(s)[c]
  {
    Split3(s, a, b);
    var head, tail := s[..a], s[b..];
    forall i | 0 <= i < |tail| ensures tail[i] != c { assert tail[i] == s[b + i]; }
    NoCharCount(head, c);
    NoCharCount(tail, c);
    assert multiset(s) == multiset(head) + multiset(s[a..b]) + multiset(tail);
  }

  lemma {:induction false} NoCharCount(s: string, c: char)
    requires forall i :: 0 <= i < |s| ==> s[i] != c
    ensures multiset(s)[c] == 0
  {
    if s != [] {
      assert s == [s[0]] + s[1..];
      NoCharCount(s[1..], c);
    }
  }

  /** Two strings that agree on where `c` stands hold `c` equally often. */
  lemma {:induction false} SamePlacesCount(a: string, b: string, c: char)
    requires |a| == |b|
    requires forall i :: 0 <= i < |a| ==> (a[i] == c <==> b[i] == c)
    ensures multiset(a)[c] == multiset(b)[c]
  {
    if a != [] {
      assert a == [a[0]] + a[1..];
      assert b == [b[0]] + b[1..];
      SamePlacesCount(a[1..], b[1..], c);
    }
  }

  // ----- phase 4 -----

  /** `s` with every `-` and `_` dropped. */
  function DropSeps(s: string): (r: string)
    ensures |r| <= |s|
  {
    if s == [] then [] else (if IsSep(s[0]) then [] else [s[0]]) + DropSeps(s[1..])
  }

  lemma {:induction false} DropSepsConcat(a: string, b: string)
    ensures DropSeps(a + b) == DropSeps(a) + DropSeps(b)
    decreases |a|
  {
    if a == [] {
      assert a + b == b;
    } else {
      assert (a + b)[1..] == a[1..] + b;
      DropSepsConcat(a[1..], b);
    }
  }

  lemma {:induction false} DropSepsCount(s: string, c: char)
    requires !IsSep(c)
    ensures multiset(DropSeps(s))[c] == multiset(s)[c]
  {
    if s != [] {
      assert s == [s[0]] + s[1..];
      DropSepsCount(s[1..], c);
    }
  }

  lemma {:induction false} DropSepsOnlySeps(s: string)
    requires forall i :: 0 <= i < |s| ==> IsSep(s[i])
    ensures DropSeps(s) == []
  {
    if s != [] {
      DropSepsOnlySeps(s[1..]);
    }
  }

  /**
   * The delimiter rewrite only inserts `-` and turns `_` into `-`: dropping
   * the separators from its result gives the input with its separators dropped.
   */
  lemma {:induction false} StandardizeKeepsNonSeps(s: string)
    ensures DropSeps(StandardizeDelimiters(s)) == DropSeps(s)
    decreases |s|, 1
  {
    if s == [] {
    } else if !IsUpper(s[0]) {
      KeepsPlain(s);
    } else {
      var q := UpperRun(s);
      if q < |s| && IsDigit(s[q]) {
        KeepsDigit(s, q);
      } else if q + 1 < |s| && IsSep(s[q]) && IsDigit(s[q + 1]) {
        KeepsSepDigit(s, q);
      } else {
        KeepsSkip(s, q);
      }
    }
  }

  lemma {:induction false} KeepsPlain(s: string)
    requires s != [] && !IsUpper(s[0])
    ensures DropSeps(StandardizeDelimiters(s)) == DropSeps(s)
    decreases |s|, 0
  {
    UnfoldPlainBranch(s);
    StandardizeKeepsNonSeps(s[1..]);
    PadEmpty(s[..1], s[1..1], StandardizeDelimiters(s[1..]));
    KeepsPiece(s, 1, 1, [], StandardizeDelimiters(s), StandardizeDelimiters(s[1..]));
  }

  lemma {:induction false} KeepsDigit(s: string, q: nat)
    requires s != [] && IsUpper(s[0]) && q == UpperRun(s)
    requires q < |s| && IsDigit(s[q])
    ensures DropSeps(StandardizeDelimiters(s)) == DropSeps(s)
    decreases |s|, 0
  {
    var d := DigitRun(s[q..]);
    UnfoldDigitBranch(s, q, d);
    SliceOfSlice(s, q, d, d);
    StandardizeKeepsNonSeps(s[q + d..]);
    KeepsPiece(s, q, q + d, "-", StandardizeDelimiters(s), StandardizeDelimiters(s[q + d..]));
  }

  lemma {:induction false} KeepsSepDigit(s: string, q: nat)
    requires s != [] && IsUpper(s[0]) && q == UpperRun(s)
    requires !(q < |s| && IsDigit(s[q]))
    requires q + 1 < |s| && IsSep(s[q]) && IsDigit(s[q + 1])
    ensures DropSeps(StandardizeDelimiters(s)) == DropSeps(s)
    decreases |s|, 0
  {
    var d := DigitRun(s[q..][1..]);
    UnfoldSepDigitBranch(s, q, d);
    SepDigitSlices(s, q, d);
    var tail := s[q + 1 + d..];
    StandardizeKeepsNonSeps(tail);
    KeepsSepPiece(s, q, q + 1 + d, StandardizeDelimiters(s), StandardizeDelimiters(tail));
  }

  /** The digits after a separator at `q`, and what follows them, as slices of `s`. */
  lemma SepDigitSlices(s: string, q: nat, d: nat)
    requires q + 1 <= |s| && d <= |s[q..][1..]|
    ensures q + 1 + d <= |s|
    ensures s[q..][1..1 + d] == s[q + 1..q + 1 + d]
    ensures s[q..][1 + d..] == s[q + 1 + d..]
  {
  }

  lemma {:induction false} KeepsSkip(s: string, q: nat)
    requires s != [] && IsUpper(s[0]) && q == UpperRun(s)
    requires !(q < |s| && IsDigit(s[q]))
    requires !(q + 1 < |s| && IsSep(s[q]) && IsDigit(s[q + 1]))
    ensures DropSeps(StandardizeDelimiters(s)) == DropSeps(s)
    decreases |s|, 0
  {
    UnfoldSkipBranch(s, q);
    StandardizeKeepsNonSeps(s[q..]);
    PadEmpty(s[..q], s[q..q], StandardizeDelimiters(s[q..]));
    KeepsPiece(s, q, q, [], StandardizeDelimiters(s), StandardizeDelimiters(s[q..]));
  }

  /** The rewrite emitted `s[..q]`, then `sep`, then `s[q..e]`, then a rewritten `s[e..]`. */
  lemma KeepsPiece(s: string, q: nat, e: nat, sep: string, out: string, tail': string)
    requires q <= e <= |s|
    requires forall i :: 0 <= i < |sep| ==> IsSep(sep[i])
    requires out == s[..q] + sep + s[q..e] + tail' && DropSeps(tail') == DropSeps(s[e..])
    ensures DropSeps(out) == DropSeps(s)
  {
    KeepsNonSepsStep(s[..q], sep, s[q..e], s[e..], tail');
    Split3(s, q, e);
  }

  /** As `KeepsPiece`, where the separator `s[q]` was rewritten to `-`. */
  lemma KeepsSepPiece(s: string, q: nat, e: nat, out: string, tail': string)
    requires q < e <= |s| && IsSep(s[q])
    requires out == s[..q] + "-" + s[q + 1..e] + tail' && DropSeps(tail') == DropSeps(s[e..])
    ensures DropSeps(out) == DropSeps(s)
  {
    KeepsNonSepsStep(s[..q], "-", s[q + 1..e], s[e..], tail');
    KeepsNonSepsStep(s[..q], s[q..q + 1], s[q + 1..e], s[e..], s[e..]);
    Split4(s, q, q + 1, e);
  }

  lemma UnfoldDigitBranch(s: string, q: nat, d: nat)
    requires s != [] && IsUpper(s[0]) && q == UpperRun(s)
    requires q < |s| && IsDigit(s[q]) && d == DigitRun(s[q..])
    ensures StandardizeDelimiters(s) == s[..q] + "-" + s[q..][..d] + StandardizeDelimiters(s[q..][d..])
  {
  }

  lemma UnfoldSepDigitBranch(s: string, q: nat, d: nat)
    requires s != [] && IsUpper(s[0]) && q == UpperRun(s)
    requires q + 1 < |s| && !IsDigit(s[q]) && IsSep(s[q]) && IsDigit(s[q + 1])
    requires d == DigitRun(s[q..][1..])
    ensures StandardizeDelimiters(s) == s[..q] + "-" + s[q..][1..1 + d] + StandardizeDelimiters(s[q..][1 + d..])
  {
  }

  lemma UnfoldSkipBranch(s: string, q: nat)
    requires s != [] && IsUpper(s[0]) && q == UpperRun(s)
    requires !(q < |s| && IsDigit(s[q]))
    requires !(q + 1 < |s| && IsSep(s[q]) && IsDigit(s[q + 1]))
    ensures StandardizeDelimiters(s) == s[..q] + StandardizeDelimiters(s[q..])
  {
  }

  lemma UnfoldPlainBranch(s: string)
    requires s != [] && !IsUpper(s[0])
    ensures StandardizeDelimiters(s) == s[..1] + StandardizeDelimiters(s[1..])
  {
    HeadSlice(s);
  }

  /** The rewrite's plain step: a character that is not an upper-case letter is copied. */
  lemma RewritePlain(c: char, rest: string)
    requires !IsUpper(c)
    ensures StandardizeDelimiters([c] + rest) == [c] + StandardizeDelimiters(rest)
  {
    assert ([c] + rest)[1..] == rest;
  }

  /** The rewrite's match without a separator: `LETTERS DIGITS` becomes `LETTERS-DIGITS`. */
  lemma RewriteDigits(run: string, digits: string, rest: string)
    requires run != [] && forall i :: 0 <= i < |run| ==> IsUpper(run[i])
    requires digits != [] && forall i :: 0 <= i < |digits| ==> IsDigit(digits[i])
    requires rest != [] ==> !IsDigit(rest[0])
    ensures StandardizeDelimiters(run + digits + rest) == run + "-" + digits + StandardizeDelimiters(rest)
  {
    var s := run + digits + rest;
    var q := |run|;
    UpperRunAt(s, q);
    assert s[q..] == digits + rest;
    DigitRunAt(digits + rest, |digits|);
    UnfoldDigitBranch(s, q, |digits|);
    assert s[..q] == run;
    assert s[q..][..|digits|] == digits;
    assert s[q..][|digits|..] == rest;
  }

  /** The rewrite's match with a separator: `LETTERS-DIGITS` and `LETTERS_DIGITS` become `LETTERS-DIGITS`. */
  lemma RewriteSepDigits(run: string, sep: char, digits: string, rest: string)
    requires run != [] && forall i :: 0 <= i < |run| ==> IsUpper(run[i])
    requires IsSep(sep)
    requires digits != [] && forall i :: 0 <= i < |digits| ==> IsDigit(digits[i])
    requires rest != [] ==> !IsDigit(rest[0])
    ensures StandardizeDelimiters(run + [sep] + digits + rest) == run + "-" + digits + StandardizeDelimiters(rest)
  {
    var t := digits + rest;
    var s := run + ([sep] + t);
    var q := |run|;
    var d := |digits|;
    calc {
      StandardizeDelimiters(run + [sep] + digits + rest);
      { Assoc4(run, [sep], digits, rest); }
      StandardizeDelimiters(s);
      { SepDigitsUnfold(run, sep, digits, rest); }
      s[..q] + "-" + s[q..][1..1 + d] + StandardizeDelimiters(s[q..][1 + d..]);
      { SepDigitsPieces(run, sep, digits, rest); }
      run + "-" + digits + StandardizeDelimiters(rest);
    }
  }

  lemma Assoc4(a: string, b: string, c: string, d: string)
    ensures a + b + c + d == a + (b + (c + d))
  {
  }

  lemma SepDigitsUnfold(run: string, sep: char, digits: string, rest: string)
    requires run != [] && forall i :: 0 <= i < |run| ==> IsUpper(run[i])
    requires IsSep(sep)
    requires digits != [] && forall i :: 0 <= i < |digits| ==> IsDigit(digits[i])
    requires rest != [] ==> !IsDigit(rest[0])
    ensures var s := run + ([sep] + (digits + rest));
      StandardizeDelimiters(s) ==
        s[..|run|] + "-" + s[|run|..][1..1 + |digits|] + StandardizeDelimiters(s[|run|..][1 + |digits|..])
  {
    var t := digits + rest;
    var s := run + ([sep] + t);
    var q := |run|;
    assert s[q] == sep && s[q + 1] == digits[0];
    UpperRunAt(s, q);
    assert s[q..] == [sep] + t;
    assert ([sep] + t)[1..] == t;
    DigitRunAt(t, |digits|);
    UnfoldSepDigitBranch(s, q, |digits|);
  }

  lemma SepDigitsPieces(run: string, sep: char, digits: string, rest: string)
    ensures var s := run + ([sep] + (digits + rest));
      && s[..|run|] == run
      && s[|run|..][1..1 + |digits|] == digits
      && s[|run|..][1 + |digits|..] == rest
  {
    var t := digits + rest;
    var s := run + ([sep] + t);
    assert s[|run|..] == [sep] + t;
    assert ([sep] + t)[1..1 + |digits|] == t[..|digits|];
    assert ([sep] + t)[1 + |digits|..] == t[|digits|..];
  }

  /** An upper-case run with no digit after it, even past one separator, is copied. */
  lemma RewriteSkip(run: string, rest: string)
    requires run != [] && forall i :: 0 <= i < |run| ==> IsUpper(run[i])
    requires rest != [] ==> !IsUpper(rest[0]) && !IsDigit(rest[0])
    requires |rest| >= 2 && IsSep(rest[0]) ==> !IsDigit(rest[1])
    ensures StandardizeDelimiters(run + rest) == run + StandardizeDelimiters(rest)
  {
    var s := run + rest;
    UpperRunAt(s, |run|);
    UnfoldSkipBranch(s, |run|);
    assert s[..|run|] == run && s[|run|..] == rest;
  }

  /**
   * The three spellings the rewrite is there for agree: `LETTERSDIGITS`,
   * `LETTERS_DIGITS` and `LETTERS-DIGITS` all become `LETTERS-DIGITS`.
   */
  lemma DelimiterSpellings(run: string, digits: string, rest: string)
    requires run != [] && forall i :: 0 <= i < |run| ==> IsUpper(run[i])
    requires digits != [] && forall i :: 0 <= i < |digits| ==> IsDigit(digits[i])
    requires rest != [] ==> !IsDigit(rest[0])
    ensures StandardizeDelimiters(run + digits + rest) == run + "-" + digits + StandardizeDelimiters(rest)
    ensures StandardizeDelimiters(run + "_" + digits + rest) == run + "-" + digits + StandardizeDelimiters(rest)
    ensures StandardizeDelimiters(run + "-" + digits + rest) == run + "-" + digits + StandardizeDelimiters(rest)
  {
    RewriteDigits(run, digits, rest);
    RewriteSepDigits(run, '_', digits, rest);
    RewriteSepDigits(run, '-', digits, rest);
  }

  lemma HeadSlice(s: string)
    requires s != []
    ensures s[..1] == [s[0]]
  {
  }

  /** Slices of a slice are slices. */
  lemma SliceOfSlice(s: string, q: nat, a: nat, b: nat)
    requires q + b <= |s| && a <= b
    ensures s[q..][a..b] == s[q + a..q + b]
    ensures s[q..][..b] == s[q..q + b]
    ensures s[q..][b..] == s[q + b..]
  {
  }

  /** Padding with empty pieces changes nothing. */
  lemma PadEmpty(a: string, m: string, b: string)
    requires m == []
    ensures a + b == a + [] + m + b
  {
  }

  lemma Split3(s: string, i: nat, j: nat)
    requires i <= j <= |s|
    ensures s == s[..i] + s[i..j] + s[j..]
  {
  }

  lemma Split4(s: string, i: nat, j: nat, k: nat)
    requires i <= j <= k <= |s|
    ensures s == s[..i] + s[i..j] + s[j..k] + s[k..]
  {
  }

  /** One step of the rewrite: a separator-only piece and a rewritten tail change nothing once separators are dropped. */
  lemma KeepsNonSepsStep(run: string, sep: string, digits: string, tail: string, tail': string)
    requires forall i :: 0 <= i < |sep| ==> IsSep(sep[i])
    requires DropSeps(tail') == DropSeps(tail)
    ensures DropSeps(run + sep + digits + tail') == DropSeps(run + digits + tail)
  {
    DropSepsOnlySeps(sep);
    DropSepsConcat(run, sep);
    var a := run + sep;
    assert DropSeps(a) == DropSeps(run);
    DropSepsConcat(a, digits);
    var b := a + digits;
    DropSepsConcat(b, tail');
    DropSepsConcat(run, digits);
    var c := run + digits;
    DropSepsConcat(c, tail);
    assert DropSeps(b + tail') == DropSeps(c + tail);
  }

  /** Every character of the rewrite's result is `-` or a character of its input. */
  lemma {:induction false} StandardizeChars(s: string)
    ensures forall i :: 0 <= i < |StandardizeDelimiters(s)| ==>
              StandardizeDelimiters(s)[i] == '-' || StandardizeDelimiters(s)[i] in s
    decreases |s|, 1
  {
    if s == [] {
    } else if !IsUpper(s[0]) {
      CharsPlain(s);
    } else {
      var q := UpperRun(s);
      if q < |s| && IsDigit(s[q]) {
        CharsDigit(s, q);
      } else if q + 1 < |s| && IsSep(s[q]) && IsDigit(s[q + 1]) {
        CharsSepDigit(s, q);
      } else {
        CharsSkip(s, q);
      }
    }
  }

  lemma {:induction false} CharsPlain(s: string)
    requires s != [] && !IsUpper(s[0])
    ensures forall i :: 0 <= i < |StandardizeDelimiters(s)| ==>
              StandardizeDelimiters(s)[i] == '-' || StandardizeDelimiters(s)[i] in s
    decreases |s|, 0
  {
    UnfoldPlainBranch(s);
    StandardizeChars(s[1..]);
    CharsStep(s, 1, s[..1], StandardizeDelimiters(s[1..]));
  }

  lemma {:induction false} CharsDigit(s: string, q: nat)
    requires s != [] && IsUpper(s[0]) && q == UpperRun(s)
    requires q < |s| && IsDigit(s[q])
    ensures forall i :: 0 <= i < |StandardizeDelimiters(s)| ==>
              StandardizeDelimiters(s)[i] == '-' || StandardizeDelimiters(s)[i] in s
    decreases |s|, 0
  {
    var d := DigitRun(s[q..]);
    UnfoldDigitBranch(s, q, d);
    SliceOfSlice(s, q, d, d);
    StandardizeChars(s[q + d..]);
    var head := s[..q] + "-" + s[q..q + d];
    forall i | 0 <= i < |head| ensures head[i] == '-' || head[i] in s {
      if i < q { assert head[i] == s[i]; }
      else if i > q { assert head[i] == s[i - 1]; }
    }
    CharsStep(s, q + d, head, StandardizeDelimiters(s[q + d..]));
  }

  lemma {:induction false} CharsSepDigit(s: string, q: nat)
    requires s != [] && IsUpper(s[0]) && q == UpperRun(s)
    requires !(q < |s| && IsDigit(s[q]))
    requires q + 1 < |s| && IsSep(s[q]) && IsDigit(s[q + 1])
    ensures forall i :: 0 <= i < |StandardizeDelimiters(s)| ==>
              StandardizeDelimiters(s)[i] == '-' || StandardizeDelimiters(s)[i] in s
    decreases |s|, 0
  {
    var d := DigitRun(s[q..][1..]);
    UnfoldSepDigitBranch(s, q, d);
    SepDigitSlices(s, q, d);
    var e := q + 1 + d;
    StandardizeChars(s[e..]);
    var head := s[..q] + "-" + s[q + 1..e];
    forall i | 0 <= i < |head| ensures head[i] == '-' || head[i] in s {
      if i != q { assert head[i] == s[i]; }
    }
    CharsStep(s, e, head, StandardizeDelimiters(s[e..]));
  }

  lemma {:induction false} CharsSkip(s: string, q: nat)
    requires s != [] && IsUpper(s[0]) && q == UpperRun(s)
    requires !(q < |s| && IsDigit(s[q]))
    requires !(q + 1 < |s| && IsSep(s[q]) && IsDigit(s[q + 1]))
    ensures forall i :: 0 <= i < |StandardizeDelimiters(s)| ==>
              StandardizeDelimiters(s)[i] == '-' || StandardizeDelimiters(s)[i] in s
    decreases |s|, 0
  {
    UnfoldSkipBranch(s, q);
    StandardizeChars(s[q..]);
    var head := s[..q];
    forall i | 0 <= i < |head| ensures head[i] == '-' || head[i] in s {
      assert head[i] == s[i];
    }
    CharsStep(s, q, head, StandardizeDelimiters(s[q..]));
  }

  /** A produced piece and a rewritten suffix of `s` draw their characters from `s` and `-`. */
  lemma CharsStep(s: string, k: nat, head: string, tail: string)
    requires k <= |s|
    requires forall i :: 0 <= i < |head| ==> head[i] == '-' || head[i] in s
    requires forall i :: 0 <= i < |tail| ==> tail[i] == '-' || tail[i] in s[k..]
    ensures forall i :: 0 <= i < |head + tail| ==> (head + tail)[i] == '-' || (head + tail)[i] in s
  {
    forall i | 0 <= i < |head + tail| ensures (head + tail)[i] == '-' || (head + tail)[i] in s {
      if i >= |head| {
        var c := tail[i - |head|];
        if c != '-' { InSuffix(s, k, c); }
      }
    }
  }

  lemma InSuffix(s: string, k: nat, c: char)
    requires k <= |s| && c in s[k..]
    ensures c in s
  {
    var j :| 0 <= j < |s[k..]| && s[k..][j] == c;
    assert s[k + j] == c;
  }

  // ----- fixed points of the delimiter rewrite -----

  /**
   * Position `i` gives the rewrite nothing to change: it is not an
   * upper-case letter followed by a digit, nor one followed by `_` and a digit.
   * (An upper-case letter, `-` and a digit is matched but rewritten to itself.)
   */
  predicate CleanAt(s: string, i: nat)
    requires i < |s|
  {
    IsUpper(s[i]) && i + 1 < |s| ==>
      !IsDigit(s[i + 1]) && !(s[i + 1] == '_' && i + 2 < |s| && IsDigit(s[i + 2]))
  }

  /** A string in standard delimiter form. */
  predicate Standard(s: string) {
    forall i :: 0 <= i < |s| ==> CleanAt(s, i)
  }

  /** A letter that is not upper case, or an upper-case letter followed by one or by `-`, is clean. */
  lemma CleanByNext(s: string, i: nat)
    requires i < |s|
    requires !IsUpper(s[i]) || (i + 1 < |s| && (IsUpper(s[i + 1]) || s[i + 1] == '-'))
    ensures CleanAt(s, i)
  {
  }

  lemma StandardSuffix(s: string, k: nat)
    requires k <= |s| && Standard(s)
    ensures Standard(s[k..])
  {
    forall i | 0 <= i < |s[k..]| ensures CleanAt(s[k..], i) {
      assert CleanAt(s, k + i);
    }
  }

  lemma StandardConcat(pre: string, t: string)
    requires Standard(t)
    requires forall i :: 0 <= i < |pre| ==> CleanAt(pre + t, i)
    ensures Standard(pre + t)
  {
    forall i | 0 <= i < |pre + t| ensures CleanAt(pre + t, i) {
      if i >= |pre| {
        assert CleanAt(t, i - |pre|);
      }
    }
  }

  /** An upper-case run, `-` and a digit run leave every position of their own clean, whatever follows. */
  lemma RewrittenPieceClean(run: string, digits: string, t: string)
    requires forall i :: 0 <= i < |run| ==> IsUpper(run[i])
    requires forall i :: 0 <= i < |digits| ==> IsDigit(digits[i])
    ensures forall i :: 0 <= i < |run + "-" + digits| ==> CleanAt(run + "-" + digits + t, i)
  {
    var x := run + "-" + digits + t;
    forall i | 0 <= i < |run + "-" + digits| ensures CleanAt(x, i) {
      if i < |run| {
        CleanByNext(x, i);
      } else if i > |run| {
        assert x[i] == digits[i - |run| - 1];
        CleanByNext(x, i);
      }
    }
  }

  /** The rewrite keeps the first character. */
  lemma StandardizeHead(s: string)
    requires s != []
    ensures StandardizeDelimiters(s) != [] && StandardizeDelimiters(s)[0] == s[0]
  {
    if IsUpper(s[0]) {
      var q := UpperRun(s);
      if q < |s| && IsDigit(s[q]) {
        UnfoldDigitBranch(s, q, DigitRun(s[q..]));
      } else if q + 1 < |s| && IsSep(s[q]) && IsDigit(s[q + 1]) {
        SliceOfSlice(s, q, 1, 1);
        UnfoldSepDigitBranch(s, q, DigitRun(s[q..][1..]));
      } else {
        UnfoldSkipBranch(s, q);
      }
    }
  }

  /** A string in standard form is left unchanged. */
  lemma {:induction false} StandardFixed(s: string)
    requires Standard(s)
    ensures StandardizeDelimiters(s) == s
    decreases |s|, 1
  {
    if s == [] {
    } else if !IsUpper(s[0]) {
      StandardFixedPlain(s);
    } else {
      var q := UpperRun(s);
      UpperRunMaximal(s);
      assert CleanAt(s, q - 1);
      if q + 1 < |s| && IsSep(s[q]) && IsDigit(s[q + 1]) {
        StandardSuffix(s, q + 1);
        StandardFixedSep(s, q);
      } else {
        StandardFixedFrom(s, q);
        StandardFixedSkip(s, q);
      }
    }
  }

  lemma {:induction false} StandardFixedPlain(s: string)
    requires Standard(s) && s != [] && !IsUpper(s[0])
    ensures StandardizeDelimiters(s) == s
    decreases |s|, 0
  {
    UnfoldPlainBranch(s);
    StandardSuffix(s, 1);
    StandardFixed(s[1..]);
    assert s[..1] + s[1..] == s;
  }

  lemma StandardFixedSkip(s: string, q: nat)
    requires s != [] && IsUpper(s[0]) && q == UpperRun(s)
    requires !(q < |s| && IsDigit(s[q]))
    requires !(q + 1 < |s| && IsSep(s[q]) && IsDigit(s[q + 1]))
    requires StandardizeDelimiters(s[q..]) == s[q..]
    ensures StandardizeDelimiters(s) == s
  {
    UnfoldSkipBranch(s, q);
    Split2(s, q);
  }

  lemma Split2(s: string, i: nat)
    requires i <= |s|
    ensures s[..i] + s[i..] == s
  {
  }

  lemma {:induction false} StandardFixedFrom(s: string, q: nat)
    requires Standard(s) && 0 < q <= |s|
    ensures StandardizeDelimiters(s[q..]) == s[q..]
    decreases |s| - q, 2
  {
    StandardSuffix(s, q);
    StandardFixed(s[q..]);
  }

  lemma {:induction false} StandardFixedSep(s: string, q: nat)
    requires s != [] && IsUpper(s[0]) && q == UpperRun(s)
    requires q + 1 < |s| && s[q] == '-' && IsDigit(s[q + 1])
    requires Standard(s[q + 1..])
    ensures StandardizeDelimiters(s) == s
    decreases |s|, 0
  {
    var d := DigitRun(s[q..][1..]);
    UnfoldSepDigitBranch(s, q, d);
    SepDigitSlices(s, q, d);
    StandardSuffix(s[q + 1..], d);
    assert s[q + 1..][d..] == s[q + 1 + d..];
    StandardFixed(s[q + 1 + d..]);
    assert s[q..q + 1] == "-";
    Split4(s, q, q + 1, q + 1 + d);
  }

  /** A string the rewrite leaves unchanged is in standard form. */
  lemma {:induction false} FixedStandard(s: string)
    ensures StandardizeDelimiters(s) == s ==> Standard(s)
    decreases |s|
  {
    if s == [] {
    } else if !IsUpper(s[0]) {
      FixedPlain(s);
    } else {
      var q := UpperRun(s);
      if q < |s| && IsDigit(s[q]) {
        var d := DigitRun(s[q..]);
        UnfoldDigitBranch(s, q, d);
        SliceOfSlice(s, q, d, d);
        assert |StandardizeDelimiters(s)| > |s|;
      } else if q + 1 < |s| && IsSep(s[q]) && IsDigit(s[q + 1]) {
        FixedSepDigit(s, q);
      } else {
        FixedSkip(s, q);
      }
    }
  }

  lemma {:induction false} FixedPlain(s: string)
    requires s != [] && !IsUpper(s[0])
    ensures StandardizeDelimiters(s) == s ==> Standard(s)
    decreases |s|, 0
  {
    UnfoldPlainBranch(s);
    FixedStandard(s[1..]);
    if StandardizeDelimiters(s) == s {
      assert (s[..1] + StandardizeDelimiters(s[1..]))[1..] == StandardizeDelimiters(s[1..]);
      assert s[..1] + s[1..] == s;
      CleanByNext(s, 0);
      StandardConcat(s[..1], s[1..]);
    }
  }

  lemma {:induction false} FixedSepDigit(s: string, q: nat)
    requires s != [] && IsUpper(s[0]) && q == UpperRun(s)
    requires !(q < |s| && IsDigit(s[q]))
    requires q + 1 < |s| && IsSep(s[q]) && IsDigit(s[q + 1])
    ensures StandardizeDelimiters(s) == s ==> Standard(s)
    decreases |s|, 0
  {
    var d := DigitRun(s[q..][1..]);
    var e := q + 1 + d;
    UnfoldSepDigitBranch(s, q, d);
    SepDigitSlices(s, q, d);
    FixedStandard(s[e..]);
    if StandardizeDelimiters(s) == s {
      var pre := s[..q] + "-" + s[q + 1..e];
      assert StandardizeDelimiters(s) == pre + StandardizeDelimiters(s[e..]);
      assert |pre| == e;
      assert (pre + StandardizeDelimiters(s[e..]))[e..] == StandardizeDelimiters(s[e..]);
      assert s[q] == '-';
      UpperRunMaximal(s);
      DigitRunMaximal(s[q..][1..]);
      RewrittenPieceClean(s[..q], s[q + 1..e], s[e..]);
      Split4(s, q, q + 1, e);
      assert pre + s[e..] == s;
      StandardConcat(pre, s[e..]);
    }
  }

  lemma {:induction false} FixedSkip(s: string, q: nat)
    requires s != [] && IsUpper(s[0]) && q == UpperRun(s)
    requires !(q < |s| && IsDigit(s[q]))
    requires !(q + 1 < |s| && IsSep(s[q]) && IsDigit(s[q + 1]))
    ensures StandardizeDelimiters(s) == s ==> Standard(s)
    decreases |s|, 0
  {
    UnfoldSkipBranch(s, q);
    FixedStandard(s[q..]);
    if StandardizeDelimiters(s) == s {
      assert (s[..q] + StandardizeDelimiters(s[q..]))[q..] == StandardizeDelimiters(s[q..]);
      assert s[..q] + s[q..] == s;
      UpperRunMaximal(s);
      forall i | 0 <= i < q ensures CleanAt(s[..q] + s[q..], i) {
        if i + 1 < q {
          CleanByNext(s, i);
        }
      }
      StandardConcat(s[..q], s[q..]);
    }
  }

  /** The rewrite's result is always in standard form. */
  lemma {:induction false} StandardizeIsStandard(s: string)
    ensures Standard(StandardizeDelimiters(s))
    decreases |s|, 1
  {
    if s == [] {
    } else if !IsUpper(s[0]) {
      UnfoldPlainBranch(s);
      StandardizeIsStandard(s[1..]);
      var x := s[..1] + StandardizeDelimiters(s[1..]);
      CleanByNext(x, 0);
      StandardConcat(s[..1], StandardizeDelimiters(s[1..]));
    } else {
      var q := UpperRun(s);
      if q < |s| && IsDigit(s[q]) {
        DigitIsStandard(s, q);
      } else if q + 1 < |s| && IsSep(s[q]) && IsDigit(s[q + 1]) {
        SepDigitIsStandard(s, q);
      } else {
        SkipIsStandard(s, q);
      }
    }
  }

  lemma {:induction false} DigitIsStandard(s: string, q: nat)
    requires s != [] && IsUpper(s[0]) && q == UpperRun(s)
    requires q < |s| && IsDigit(s[q])
    ensures Standard(StandardizeDelimiters(s))
    decreases |s|, 0
  {
    var d := DigitRun(s[q..]);
    UnfoldDigitBranch(s, q, d);
    UpperRunMaximal(s);
    DigitRunMaximal(s[q..]);
    var t := StandardizeDelimiters(s[q..][d..]);
    StandardizeIsStandard(s[q..][d..]);
    RewrittenPieceClean(s[..q], s[q..][..d], t);
    StandardConcat(s[..q] + "-" + s[q..][..d], t);
  }

  lemma {:induction false} SepDigitIsStandard(s: string, q: nat)
    requires s != [] && IsUpper(s[0]) && q == UpperRun(s)
    requires !(q < |s| && IsDigit(s[q]))
    requires q + 1 < |s| && IsSep(s[q]) && IsDigit(s[q + 1])
    ensures Standard(StandardizeDelimiters(s))
    decreases |s|, 0
  {
    SliceOfSlice(s, q, 1, 1);
    var d := DigitRun(s[q..][1..]);
    UnfoldSepDigitBranch(s, q, d);
    UpperRunMaximal(s);
    DigitRunMaximal(s[q..][1..]);
    var t := StandardizeDelimiters(s[q..][1 + d..]);
    StandardizeIsStandard(s[q..][1 + d..]);
    RewrittenPieceClean(s[..q], s[q..][1..1 + d], t);
    StandardConcat(s[..q] + "-" + s[q..][1..1 + d], t);
  }

  lemma {:induction false} SkipIsStandard(s: string, q: nat)
    requires s != [] && IsUpper(s[0]) && q == UpperRun(s)
    requires !(q < |s| && IsDigit(s[q]))
    requires !(q + 1 < |s| && IsSep(s[q]) && IsDigit(s[q + 1]))
    ensures Standard(StandardizeDelimiters(s))
    decreases |s|, 0
  {
    UnfoldSkipBranch(s, q);
    UpperRunMaximal(s);
    var t := StandardizeDelimiters(s[q..]);
    StandardizeIsStandard(s[q..]);
    var x := s[..q] + t;
    if q < |s| {
      StandardizeHead(s[q..]);
      if |s| > q + 1 {
        UnfoldPlainBranch(s[q..]);
        StandardizeHead(s[q..][1..]);
        assert t[1] == s[q + 1];
      }
    }
    forall i | 0 <= i < q ensures CleanAt(x, i) {
      if i + 1 < q {
        CleanByNext(x, i);
      }
    }
    StandardConcat(s[..q], t);
  }

  /** The rewrite leaves `s` unchanged exactly when `s` is in standard form. */
  lemma StandardizeFixedIff(s: string)
    ensures StandardizeDelimiters(s) == s <==> Standard(s)
  {
    FixedStandard(s);
    if Standard(s) {
      StandardFixed(s);
    }
  }

  /** The delimiter rewrite is idempotent (unlike the whole of `Normalize`). */
  lemma StandardizeIdempotent(s: string)
    ensures StandardizeDelimiters(StandardizeDelimiters(s)) == StandardizeDelimiters(s)
  {
    StandardizeIsStandard(s);
    StandardFixed(StandardizeDelimiters(s));
  }

  // ----- whole pipeline -----

  /** The delimiter rewrite brings in no `_`, space, tab or newline. */
  lemma RewriteNoErased(s: string)
    requires NoErased(s)
    ensures NoErased(StandardizeDelimiters(s))
  {
    StandardizeChars(s);
    var r := StandardizeDelimiters(s);
    forall i | 0 <= i < |r| ensures !IsErased(r[i]) {
      if r[i] != '-' {
        var j :| 0 <= j < |s| && s[j] == r[i];
      }
    }
  }

  /** Case folding keeps the number of colons. */
  lemma CaseColonCount(s: string)
    ensures multiset(NormalizeCase(s))[':'] == multiset(s)[':']
  {
    var r := NormalizeCase(s);
    forall i | 0 <= i < |s| ensures s[i] == ':' <==> r[i] == ':' {
    }
    SamePlacesCount(s, r, ':');
  }

  /** The delimiter rewrite keeps the number of colons. */
  lemma StandardizeColonCount(s: string)
    ensures multiset(StandardizeDelimiters(s))[':'] == multiset(s)[':']
  {
    StandardizeKeepsNonSeps(s);
    DropSepsCount(s, ':');
    DropSepsCount(StandardizeDelimiters(s), ':');
  }

  /** No lower-case letter before the first colon (trivially true when there is no colon). */
  predicate NoLowerBeforeColon(s: string)
    decreases |s|
  {
    s == [] || s[0] == ':' || (!IsLower(s[0]) && NoLowerBeforeColon(s[1..]))
  }

  lemma {:induction false} NoLowerBeforeColonAt(s: string)
    requires ':' in s
    ensures NoLowerBeforeColon(s) <==> forall i :: 0 <= i < FirstColon(s) ==> !IsLower(s[i])
  {
    if s[0] != ':' {
      NoLowerBeforeColonAt(s[1..]);
      assert forall i :: 1 <= i < FirstColon(s) ==> s[i] == s[1..][i - 1];
    }
  }

  lemma {:induction false} NoLowerBeforeColonDropSeps(s: string)
    ensures NoLowerBeforeColon(DropSeps(s)) <==> NoLowerBeforeColon(s)
  {
    if s != [] {
      NoLowerBeforeColonDropSeps(s[1..]);
      if IsSep(s[0]) {
        assert DropSeps(s) == DropSeps(s[1..]);
      } else {
        assert DropSeps(s) == [s[0]] + DropSeps(s[1..]);
        assert DropSeps(s)[1..] == DropSeps(s[1..]);
      }
    }
  }

  /** A colon with no colon before it is the first colon. */
  lemma FirstColonAt(s: string, k: nat)
    requires k < |s| && s[k] == ':'
    requires forall i :: 0 <= i < k ==> s[i] != ':'
    ensures FirstColon(s) == k
  {
  }

  /**
   * Case folding around a colon: the part before the first colon is
   * upper-cased, the rest is upper-cased exactly when it is a hex string.
   */
  lemma CaseAroundColon(a: string, d: string)
    requires ':' !in a
    ensures NormalizeCase(a + ":" + d) == Upper(a) + ":" + (if IsHexString(d) then Upper(d) else d)
  {
    var s := a + ":" + d;
    var k := |a|;
    assert s[k] == ':';
    assert forall i :: 0 <= i < k ==> s[i] == a[i];
    FirstColonAt(s, k);
    assert s[..k] == a && s[k + 1..] == d;
    var r := NormalizeCase(s);
    assert r == r[..k] + [r[k]] + r[k + 1..];
  }

  /** Case folding leaves no lower-case letter before the first colon. */
  lemma NormalizeCaseNoLower(s: string)
    requires ':' in s
    ensures NoLowerBeforeColon(NormalizeCase(s))
  {
    var r := NormalizeCase(s);
    var k := FirstColon(s);
    forall i | 0 <= i < k ensures r[i] != ':' {
      assert s[..k][i] == s[i];
    }
    FirstColonAt(r, k);
    NoLowerBeforeColonAt(r);
  }

  /** The delimiter rewrite keeps the algorithm part free of lower-case letters. */
  lemma StandardizeNoLower(s: string)
    requires NoLowerBeforeColon(s)
    ensures NoLowerBeforeColon(StandardizeDelimiters(s))
  {
    StandardizeKeepsNonSeps(s);
    NoLowerBeforeColonDropSeps(s);
    NoLowerBeforeColonDropSeps(StandardizeDelimiters(s));
  }

  /** A colon survives case folding and the delimiter rewrite in both directions. */
  lemma ColonPresence(p1: string)
    ensures ':' in StandardizeDelimiters(NormalizeCase(p1)) <==> ':' in p1
  {
    var p2 := NormalizeCase(p1);
    forall i | 0 <= i < |p1| ensures p1[i] == ':' <==> p2[i] == ':' { }
    SamePlacesCount(p1, p2, ':');
    StandardizeKeepsNonSeps(p2);
    DropSepsCount(p2, ':');
    DropSepsCount(StandardizeDelimiters(p2), ':');
  }

  /** When the output holds a colon, its algorithm part has no lower-case letter. */
  lemma NormalizeAlgorithmUpper(input: string)
    ensures ':' in Normalize(input) ==>
              forall i :: 0 <= i < FirstColon(Normalize(input)) ==> !IsLower(Normalize(input)[i])
  {
    if input != [] {
      var p1 := ApplyMappings(Strip(input), EncodingMappings);
      assert Normalize(input) == StandardizeDelimiters(NormalizeCase(p1));
      PhaseTwoAlgorithmUpper(p1);
    }
  }

  /** The case and delimiter phases leave no lower-case letter before the first colon. */
  lemma PhaseTwoAlgorithmUpper(p1: string)
    ensures var r := StandardizeDelimiters(NormalizeCase(p1));
      ':' in r ==> forall i :: 0 <= i < FirstColon(r) ==> !IsLower(r[i])
  {
    var r := StandardizeDelimiters(NormalizeCase(p1));
    if ':' in r {
      ColonPresence(p1);
      NormalizeCaseNoLower(p1);
      StandardizeNoLower(NormalizeCase(p1));
      NoLowerBeforeColonAt(r);
    }
  }
}
