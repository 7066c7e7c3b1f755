/**
 * What the two configuration dataclasses (`RSA2048Config`, `RSA3072Config`)
 * have in common: the profile record and the one kind of compiled pattern
 * they hold, `^<prefix>[a-fA-F0-9]{<count>}$`.
 */
module Profile {
  import opened PyStr

  /** A compiled pattern `^<prefix>[a-fA-F0-9]{<count>}$`, kept as its two parameters. */
  datatype HexShape = HexShape(prefix: string, count: nat)

  /** The frozen configuration dataclass: one field per dataclass field. */
  datatype AlgorithmProfile = AlgorithmProfile(
    algorithm: string,
    keySize: nat,
    pattern: HexShape,
    securityLevel: string,
    digestLength: nat,
    compatibilityMatrix: map<string, bool>)

  /**
   * `pattern.match(s)` is truthy: `s` starts with the prefix, then exactly
   * `count` hex characters, then ends; Python's `$` also lets one newline
   * follow at the very end.
   */
  predicate Matches(shape: HexShape, s: string) {
    var n := |shape.prefix| + shape.count;
    && (|s| == n || (|s| == n + 1 && s[n] == '\n'))
    && s[..|shape.prefix|] == shape.prefix
    && AllHex(s[|shape.prefix|..n])
  }

  /** The strings the pattern admits, built up rather than taken apart. */
  ghost predicate Admits(shape: HexShape, s: string) {
    exists d :: |d| == shape.count && AllHex(d) &&
      (s == shape.prefix + d || s == shape.prefix + d + "\n")
  }

  /** The matcher accepts exactly the prefix, `count` hex characters and an optional final newline. */
  lemma MatchesIff(shape: HexShape, s: string)
    ensures Matches(shape, s) <==> Admits(shape, s)
  {
    var p := |shape.prefix|;
    var n := p + shape.count;
    if Matches(shape, s) {
      var d := s[p..n];
      if |s| == n {
        assert s == shape.prefix + d;
      } else {
        assert s == shape.prefix + d + "\n";
      }
    }
    if Admits(shape, s) {
      var d :| |d| == shape.count && AllHex(d) &&
        (s == shape.prefix + d || s == shape.prefix + d + "\n");
      assert s[..p] == shape.prefix;
      assert s[p..n] == d;
    }
  }

  /** A string without the prefix is never matched. */
  lemma WrongPrefixRejected(shape: HexShape, s: string)
    requires |s| < |shape.prefix| || s[..|shape.prefix|] != shape.prefix
    ensures !Matches(shape, s)
  {
  }

  function DigitChar(n: nat): (c: char)
    requires n < 10
    ensures IsDigit(c) && c as int - '0' as int == n
  {
    ('0' as int + n) as char
  }

  /** `str(n)`: the decimal digits of `n`, most significant first. */
  function DecimalString(n: nat): (r: string)
    ensures r != [] && forall i :: 0 <= i < |r| ==> IsDigit(r[i])
    decreases n
  {
    if n < 10 then [DigitChar(n)] else DecimalString(n / 10) + [DigitChar(n % 10)]
  }

  /** `int(s)` on a string of decimal digits. */
  function DecimalValue(s: string): nat
    requires forall i :: 0 <= i < |s| ==> IsDigit(s[i])
    decreases |s|
  {
    if s == [] then 0
    else
      assert IsDigit(s[|s| - 1]);
      10 * DecimalValue(s[..|s| - 1]) + (s[|s| - 1] as int - '0' as int)
  }

  /** Reading back the rendered repetition count gives the count. */
  lemma {:induction false} DecimalRoundTrip(n: nat)
    ensures DecimalValue(DecimalString(n)) == n
    decreases n
  {
    var r := DecimalString(n);
    if n >= 10 {
      DecimalRoundTrip(n / 10);
      assert r[..|r| - 1] == DecimalString(n / 10);
    }
  }

  /** The pattern text without anchors: `<prefix>[a-fA-F0-9]{<count>}`. */
  function Unanchored(shape: HexShape): string {
    shape.prefix + "[a-fA-F0-9]{" + DecimalString(shape.count) + "}"
  }

  /** The source text of the compiled pattern, `pattern.pattern`. */
  function Source(shape: HexShape): string {
    "^" + Unanchored(shape) + "$"
  }
}
