/**
 * The Python `str` operations the normaliser relies on, restricted to ASCII:
 * `strip()` with no argument, `replace(pat, rep)` and `upper()`/`lower()`,
 * plus the character classes `[A-Z]`, `[a-z]`, `\d` and `[a-fA-F0-9]`.
 */
module PyStr {

  predicate IsUpper(c: char) { 'A' <= c <= 'Z' }
  predicate IsLower(c: char) { 'a' <= c <= 'z' }
  predicate IsDigit(c: char) { '0' <= c <= '9' }
  predicate IsHexChar(c: char) { IsDigit(c) || 'a' <= c <= 'f' || 'A' <= c <= 'F' }

  /** Every character of `s` is in `[a-fA-F0-9]`. */
  predicate AllHex(s: string) {
    forall i :: 0 <= i < |s| ==> IsHexChar(s[i])
  }

  /** `str.isspace()` on ASCII: space, \t, \n, \v, \f, \r and the separators \x1c-\x1f. */
  predicate IsSpace(c: char) {
    c == ' ' || 9 <= c as int <= 13 || 28 <= c as int <= 31
  }

  function UpperChar(c: char): (u: char)
    ensures !IsLower(u)
    ensures IsLower(c) ==> IsUpper(u) && u as int == c as int - 32
    ensures !IsLower(c) ==> u == c
  {
    if IsLower(c) then (c as int - 32) as char else c
  }

  function LowerChar(c: char): (l: char)
    ensures !IsUpper(l)
    ensures IsUpper(c) ==> IsLower(l) && l as int == c as int + 32
    ensures !IsUpper(c) ==> l == c
  {
    if IsUpper(c) then (c as int + 32) as char else c
  }

  /** `str.upper()` on ASCII text: only the letters a-z change. */
  function Upper(s: string): (r: string)
    ensures |r| == |s|
    ensures forall i :: 0 <= i < |s| ==> !IsLower(r[i])
    ensures forall i :: 0 <= i < |s| ==> r[i] == s[i] || (IsLower(s[i]) && IsUpper(r[i]))
  {
    seq(|s|, i requires 0 <= i < |s| => UpperChar(s[i]))
  }

  /** `str.lower()` on ASCII text: only the letters A-Z change. */
  function Lower(s: string): (r: string)
    ensures |r| == |s|
    ensures forall i :: 0 <= i < |s| ==> !IsUpper(r[i])
    ensures forall i :: 0 <= i < |s| ==> r[i] == s[i] || (IsUpper(s[i]) && IsLower(r[i]))
  {
    seq(|s|, i requires 0 <= i < |s| => LowerChar(s[i]))
  }

  /** `c * n`: the character `c` repeated `n` times. */
  function Repeat(c: char, n: nat): (r: string)
    ensures |r| == n && forall i :: 0 <= i < n ==> r[i] == c
  {
    seq(n, i => c)
  }

  /** Number of whitespace characters at the start of `s`. */
  function LeadingSpace(s: string): (n: nat)
    ensures n <= |s|
    ensures forall i :: 0 <= i < n ==> IsSpace(s[i])
    ensures n < |s| ==> !IsSpace(s[n])
  {
    if s != [] && IsSpace(s[0]) then 1 + LeadingSpace(s[1..]) else 0
  }

  /** Number of whitespace characters at the end of `s`. */
  function TrailingSpace(s: string): (n: nat)
    ensures n <= |s|
    ensures forall i :: |s| - n <= i < |s| ==> IsSpace(s[i])
    ensures n < |s| ==> !IsSpace(s[|s| - 1 - n])
  {
    if s != [] && IsSpace(s[|s| - 1]) then 1 + TrailingSpace(s[..|s| - 1]) else 0
  }

  /**
   * `str.strip()`: the longest infix of `s` that neither starts nor ends with
   * whitespace, everything cut off on either side being whitespace.
   */
  function Strip(s: string): (r: string)
    ensures LeadingSpace(s) + |r| <= |s|
    ensures r == s[LeadingSpace(s)..LeadingSpace(s) + |r|]
    ensures forall i :: 0 <= i < LeadingSpace(s) ==> IsSpace(s[i])
    ensures forall i :: LeadingSpace(s) + |r| <= i < |s| ==> IsSpace(s[i])
    ensures r != [] ==> !IsSpace(r[0]) && !IsSpace(r[|r| - 1])
  {
    var t := s[LeadingSpace(s)..];
    t[..|t| - TrailingSpace(t)]
  }

  /** Stripping a string that neither starts nor ends with whitespace changes nothing. */
  lemma StripUnpadded(s: string)
    requires s != [] && !IsSpace(s[0]) && !IsSpace(s[|s| - 1])
    ensures Strip(s) == s
  {
    assert LeadingSpace(s) == 0;
    assert !IsSpace(s[|s| - 1]);
  }

  /** Stripping removes whitespace padding on both sides of a string that does not start or end with it. */
  lemma StripPadded(pre: string, s: string, post: string)
    requires forall i :: 0 <= i < |pre| ==> IsSpace(pre[i])
    requires forall i :: 0 <= i < |post| ==> IsSpace(post[i])
    requires s != [] && !IsSpace(s[0]) && !IsSpace(s[|s| - 1])
    ensures Strip(pre + s + post) == s
  {
    var x := pre + s + post;
    var l := |pre|;
    assert x[l] == s[0] && x[l + |s| - 1] == s[|s| - 1];
    assert forall i :: 0 <= i < l ==> x[i] == pre[i];
    assert forall i :: l + |s| <= i < |x| ==> x[i] == post[i - l - |s|];
    assert LeadingSpace(x) == l;
    var r := Strip(x);
    assert r == x[l..l + |s|];
    assert x[l..l + |s|] == s;
  }

  /**
   * `s.replace(pat, rep)` for a non-empty pattern `pat`: one left-to-right pass that
   * replaces each leftmost non-overlapping occurrence and never rescans what
   * it has produced.
   */
  function ReplaceAll(s: string, pat: string, rep: string): string
    requires pat != []
    decreases |s|
  {
    if |s| < |pat| then s
    else if s[..|pat|] == pat then rep + ReplaceAll(s[|pat|..], pat, rep)
    else [s[0]] + ReplaceAll(s[1..], pat, rep)
  }

  /** Every character of a replacement result comes from `s` or from `rep`. */
  lemma {:induction false} ReplaceAllChars(s: string, pat: string, rep: string)
    requires pat != []
    ensures forall i :: 0 <= i < |ReplaceAll(s, pat, rep)| ==>
              ReplaceAll(s, pat, rep)[i] in s || ReplaceAll(s, pat, rep)[i] in rep
    decreases |s|
  {
    if |s| < |pat| {
    } else if s[..|pat|] == pat {
      ReplaceAllChars(s[|pat|..], pat, rep);
      var rest := ReplaceAll(s[|pat|..], pat, rep);
      forall i | 0 <= i < |rest| ensures rest[i] in s || rest[i] in rep {
        if rest[i] in s[|pat|..] {
          var j :| 0 <= j < |s[|pat|..]| && s[|pat|..][j] == rest[i];
          assert s[|pat| + j] == rest[i];
        }
      }
    } else {
      ReplaceAllChars(s[1..], pat, rep);
      var rest := ReplaceAll(s[1..], pat, rep);
      forall i | 0 <= i < |rest| ensures rest[i] in s || rest[i] in rep {
        if rest[i] in s[1..] {
          var j :| 0 <= j < |s[1..]| && s[1..][j] == rest[i];
          assert s[1 + j] == rest[i];
        }
      }
    }
  }

  /** A character that is absent from `s` and from `rep` is absent from the result. */
  lemma ReplaceAllKeepsAbsent(s: string, pat: string, rep: string, c: char)
    requires pat != []
    requires c !in s && c !in rep
    ensures c !in ReplaceAll(s, pat, rep)
  {
    ReplaceAllChars(s, pat, rep);
  }

  /** Replacing a single character by text without it leaves no occurrence of it. */
  lemma {:induction false} ReplaceAllRemovesChar(s: string, c: char, rep: string)
    requires c !in rep
    ensures c !in ReplaceAll(s, [c], rep)
    decreases |s|
  {
    if |s| < 1 {
    } else if s[..1] == [c] {
      ReplaceAllRemovesChar(s[1..], c, rep);
    } else {
      assert s[0] != c;
      ReplaceAllRemovesChar(s[1..], c, rep);
    }
  }

  /** When some character of `pat` never occurs in `s`, nothing is replaced. */
  lemma {:induction false} ReplaceAllAbsent(s: string, pat: string, rep: string, k: nat)
    requires k < |pat| && pat[k] !in s
    ensures ReplaceAll(s, pat, rep) == s
    decreases |s|
  {
    if |s| < |pat| {
    } else {
      assert s[k] == s[..|pat|][k];
      ReplaceAllAbsent(s[1..], pat, rep, k);
      assert s == [s[0]] + s[1..];
    }
  }

  /** A character outside both `pat` and `rep` occurs as often after the replacement as before. */
  lemma {:induction false} ReplaceAllCount(s: string, pat: string, rep: string, c: char)
    requires pat != []
    requires c !in pat && c !in rep
    ensures multiset(ReplaceAll(s, pat, rep))[c] == multiset(s)[c]
    decreases |s|
  {
    if |s| < |pat| {
    } else if s[..|pat|] == pat {
      ReplaceAllCount(s[|pat|..], pat, rep, c);
      assert s == s[..|pat|] + s[|pat|..];
      assert multiset(pat)[c] == 0;
      assert multiset(rep)[c] == 0;
    } else {
      ReplaceAllCount(s[1..], pat, rep, c);
      assert s == [s[0]] + s[1..];
    }
  }

  /** Replacing a single character distributes over concatenation. */
  lemma {:induction false} ReplaceCharConcat(a: string, b: string, c: char, rep: string)
    ensures ReplaceAll(a + b, [c], rep) == ReplaceAll(a, [c], rep) + ReplaceAll(b, [c], rep)
    decreases |a|
  {
    if a == [] {
      assert a + b == b;
    } else {
      assert (a + b)[1..] == a[1..] + b;
      assert (a + b)[..1] == a[..1];
      ReplaceCharConcat(a[1..], b, c, rep);
    }
  }

  /** A single character occurring once is replaced there and nowhere else. */
  lemma ReplaceSingle(a: string, c: char, b: string, rep: string)
    requires c !in a && c !in b
    ensures ReplaceAll(a + [c] + b, [c], rep) == a + rep + b
  {
    ReplaceCharConcat(a + [c], b, c, rep);
    ReplaceCharConcat(a, [c], c, rep);
    ReplaceAllAbsent(a, [c], rep, 0);
    ReplaceAllAbsent(b, [c], rep, 0);
    assert [c][..1] == [c] && [c][1..] == [];
  }

  /**
   * A two-character pattern cannot match inside, or across the end of, a
   * prefix that lacks its second character and does not end in its first:
   * the prefix is copied and the replacement goes on after it.
   */
  lemma {:induction false} ReplaceAllKeepsPrefix(a: string, b: string, pat: string, rep: string)
    requires |pat| == 2 && pat[1] !in a
    requires a != [] ==> a[|a| - 1] != pat[0]
    ensures ReplaceAll(a + b, pat, rep) == a + ReplaceAll(b, pat, rep)
    decreases |a|
  {
    var s := a + b;
    if a == [] {
      assert s == b;
    } else if |s| < 2 {
      assert b == [] && s == a;
    } else {
      if |a| >= 2 {
        assert s[..2][1] == a[1];
      } else {
        assert s[..2][0] == a[|a| - 1];
      }
      assert s[1..] == a[1..] + b;
      ReplaceAllKeepsPrefix(a[1..], b, pat, rep);
      assert a == [a[0]] + a[1..];
    }
  }

  /** Python's single pass does not rescan: `"00xx".replace("0x", "")` is `"0x"`, which still holds `"0x"`. */
  lemma ReplaceAllSinglePass()
    ensures ReplaceAll("00xx", "0x", "") == "0x"
    ensures ReplaceAll("0x", "0x", "") == ""
  {
    assert "00xx"[..2] == "00";
    assert "00xx"[1..][..2] == "0x";
    assert "00xx"[1..][2..] == "x";
    assert "0x"[..2] == "0x";
  }
}
