/**
 * The pieces of the Java platform that the path rewriting relies on, modelled on strings:
 * Integer.toString, String.replace with a one-character target, the literal fragment of
 * java.util.regex patterns, and String.replaceFirst with a pattern anchored by `$`.
 */
module JavaText {
  import opened Wrappers

  // ---------------------------------------------------------------------------------------
  // Integer.toString
  // ---------------------------------------------------------------------------------------

  predicate IsDigit(c: char) {
    '0' <= c <= '9'
  }

  function DigitChar(d: nat): (c: char)
    requires d < 10
    ensures IsDigit(c)
  {
    (48 + d) as char
  }

  /** Decimal rendering of a natural number, most significant digit first, no leading zeros. */
  function NatToString(n: nat): (r: string)
    ensures |r| >= 1
    ensures n >= 10 ==> |r| >= 2
    ensures forall i :: 0 <= i < |r| ==> IsDigit(r[i])
  {
    if n < 10 then [DigitChar(n)] else NatToString(n / 10) + [DigitChar(n % 10)]
  }

  /** Integer.toString: a minus sign for negative numbers, then the digits. */
  function IntToString(n: int): (r: string)
    ensures |r| >= 1 && IsDigit(r[|r| - 1])
    ensures r[0] == '-' <==> n < 0
    ensures forall i :: 0 <= i < |r| ==> IsDigit(r[i]) || (i == 0 && r[i] == '-')
  {
    if n < 0 then "-" + NatToString(-n) else NatToString(n)
  }

  /** The number a string of decimal digits spells, most significant digit first. */
  function DigitsValue(s: string): int
    decreases |s|
  {
    if s == [] then 0 else 10 * DigitsValue(s[..|s| - 1]) + (s[|s| - 1] as int - 48)
  }

  /** The number a decimal string spells: an optional minus sign, then digits. */
  function DecimalValue(s: string): int {
    if |s| > 0 && s[0] == '-' then -DigitsValue(s[1..]) else DigitsValue(s)
  }

  /** The digits NatToString produces spell n. */
  lemma {:induction false} NatToStringValue(n: nat)
    ensures DigitsValue(NatToString(n)) == n
  {
    var s := NatToString(n);
    if n < 10 {
      assert s[..|s| - 1] == [];
    } else {
      assert s[..|s| - 1] == NatToString(n / 10);
      NatToStringValue(n / 10);
    }
  }

  /** Integer.toString renders the number itself: read back as a decimal, it gives n. */
  lemma IntToStringValue(n: int)
    ensures DecimalValue(IntToString(n)) == n
  {
    if n < 0 {
      assert IntToString(n)[1..] == NatToString(-n);
      NatToStringValue(-n);
    } else {
      NatToStringValue(n);
    }
  }

  lemma {:induction false} NatToStringInjective(a: nat, b: nat)
    requires NatToString(a) == NatToString(b)
    ensures a == b
  {
    var s := NatToString(a);
    if a < 10 && b < 10 {
      assert DigitChar(a) == s[0] == DigitChar(b);
    } else if a >= 10 && b >= 10 {
      var qa, qb := NatToString(a / 10), NatToString(b / 10);
      assert s == qa + [DigitChar(a % 10)] && s == qb + [DigitChar(b % 10)];
      assert qa == s[..|s| - 1] == qb;
      assert DigitChar(a % 10) == s[|s| - 1] == DigitChar(b % 10);
      NatToStringInjective(a / 10, b / 10);
    }
  }

  /** Different versions are rendered differently, so versioned URLs of different versions differ. */
  lemma IntToStringInjective(a: int, b: int)
    requires IntToString(a) == IntToString(b)
    ensures a == b
  {
    var sa, sb := IntToString(a), IntToString(b);
    if a < 0 && b < 0 {
      assert sa[1..] == NatToString(-a) && sb[1..] == NatToString(-b);
      NatToStringInjective(-a, -b);
    } else if a >= 0 && b >= 0 {
      NatToStringInjective(a, b);
    }
  }

  // ---------------------------------------------------------------------------------------
  // Suffixes
  // ---------------------------------------------------------------------------------------

  predicate EndsWith(s: string, suffix: string) {
    |suffix| <= |s| && s[|s| - |suffix|..] == suffix
  }

  // ---------------------------------------------------------------------------------------
  // String.replace(CharSequence, CharSequence) with a one-character target
  // ---------------------------------------------------------------------------------------

  /** Every occurrence of `target` in `s` replaced by `replacement`, left to right. */
  function ReplaceChar(s: string, target: char, replacement: string): (r: string)
    ensures target !in replacement ==> target !in r
    ensures (forall i :: 0 <= i < |s| ==> s[i] != target) ==> r == s
  {
    if s == [] then []
    else (if s[0] == target then replacement else [s[0]]) + ReplaceChar(s[1..], target, replacement)
  }

  lemma {:induction false} ReplaceCharConcat(a: string, b: string, target: char, replacement: string)
    ensures ReplaceChar(a + b, target, replacement)
         == ReplaceChar(a, target, replacement) + ReplaceChar(b, target, replacement)
  {
    if a != [] {
      var head := if a[0] == target then replacement else [a[0]];
      assert (a + b)[0] == a[0] && (a + b)[1..] == a[1..] + b;
      assert ReplaceChar(a + b, target, replacement) == head + ReplaceChar(a[1..] + b, target, replacement);
      assert ReplaceChar(a, target, replacement) == head + ReplaceChar(a[1..], target, replacement);
      ReplaceCharConcat(a[1..], b, target, replacement);
    } else {
      assert a + b == b;
    }
  }

  /** `path.replace("{", "\\{").replace("}", "\\}")`: braces escaped for use inside a regex. */
  function EscapeBraces(path: string): string {
    ReplaceChar(ReplaceChar(path, '{', "\\{"), '}', "\\}")
  }

  /** What EscapeBraces does to a single character. */
  function EscapeBrace(c: char): string {
    if c == '{' then "\\{" else if c == '}' then "\\}" else [c]
  }

  lemma EscapeBracesCons(c: char, rest: string)
    ensures EscapeBraces([c] + rest) == EscapeBrace(c) + EscapeBraces(rest)
  {
    assert ([c] + rest)[1..] == rest;
    var first := if c == '{' then "\\{" else [c];
    assert ReplaceChar([c] + rest, '{', "\\{") == first + ReplaceChar(rest, '{', "\\{");
    ReplaceCharConcat(first, ReplaceChar(rest, '{', "\\{"), '}', "\\}");
    if c == '{' {
      assert ReplaceChar(first, '}', "\\}") == "\\{" by {
        assert first[1..] == "{";
        assert first[1..][1..] == [];
      }
    } else {
      assert first[1..] == [];
    }
  }

  // ---------------------------------------------------------------------------------------
  // The literal fragment of java.util.regex
  // ---------------------------------------------------------------------------------------

  /** Characters that have a meaning of their own in a java.util.regex pattern. */
  predicate IsRegexMeta(c: char) {
    c in "\\^$.|?*+()[]{}"
  }

  predicate IsAsciiAlphanumeric(c: char) {
    ('a' <= c <= 'z') || ('A' <= c <= 'Z') || IsDigit(c)
  }

  /**
   * The text a pattern matches when it is made only of ordinary characters and of backslash
   * escapes of non-alphanumeric characters (which java.util.regex reads as that character);
   * None for every other pattern, which this model does not interpret.
   */
  function RegexLiteral(pattern: string): (r: Option<string>)
    decreases |pattern|
  {
    if pattern == [] then Some([])
    else if pattern[0] == '\\' then
      if |pattern| >= 2 && !IsAsciiAlphanumeric(pattern[1]) then
        match RegexLiteral(pattern[2..])
        case Some(rest) => Some([pattern[1]] + rest)
        case None => None
      else None
    else if IsRegexMeta(pattern[0]) then None
    else
      match RegexLiteral(pattern[1..])
      case Some(rest) => Some([pattern[0]] + rest)
      case None => None
  }

  /** A path whose characters are all ordinary in a regex, braces allowed when they get escaped. */
  predicate PlainPath(path: string, bracesEscaped: bool) {
    forall i :: 0 <= i < |path| ==>
      !IsRegexMeta(path[i]) || (bracesEscaped && (path[i] == '{' || path[i] == '}'))
  }

  /** A path with no regex metacharacter, used as a pattern unchanged, matches exactly itself. */
  lemma {:induction false} PlainPathIsLiteral(path: string)
    requires PlainPath(path, false)
    ensures RegexLiteral(path) == Some(path)
  {
    if path != [] {
      assert PlainPath(path[1..], false) by {
        forall i | 0 <= i < |path[1..]| ensures !IsRegexMeta(path[1..][i]) {
          assert path[1..][i] == path[i + 1];
        }
      }
      PlainPathIsLiteral(path[1..]);
      assert path == [path[0]] + path[1..];
    }
  }

  /** Escaping the braces of a path lets the regex match the path itself, braces included. */
  lemma {:induction false} EscapedPathIsLiteral(path: string)
    requires PlainPath(path, true)
    ensures RegexLiteral(EscapeBraces(path)) == Some(path)
  {
    if path == [] {
      assert EscapeBraces(path) == [];
    } else {
      var c, rest := path[0], path[1..];
      assert path == [c] + rest;
      assert PlainPath(rest, true) by {
        forall i | 0 <= i < |rest|
          ensures !IsRegexMeta(rest[i]) || rest[i] == '{' || rest[i] == '}'
        {
          assert rest[i] == path[i + 1];
        }
      }
      EscapedPathIsLiteral(rest);
      EscapeBracesCons(c, rest);
      var e := EscapeBrace(c) + EscapeBraces(rest);
      if c == '{' || c == '}' {
        assert e[0] == '\\' && e[1] == c && e[2..] == EscapeBraces(rest);
      } else {
        assert e[0] == c && e[1..] == EscapeBraces(rest);
      }
    }
  }

  // ---------------------------------------------------------------------------------------
  // String.replaceFirst(regex + "$", replacement)
  // ---------------------------------------------------------------------------------------

  /** A replacement string without `$` (group reference) or `\` (escape) is inserted verbatim. */
  predicate PlainReplacement(replacement: string) {
    forall i :: 0 <= i < |replacement| ==> replacement[i] != '$' && replacement[i] != '\\'
  }

  /**
   * Matcher.find for `literal$`: try each start position from `from` upwards and stop at the
   * first one where the literal matches and is followed by the end of the input.
   */
  function FindEndAnchored(s: string, literal: string, from: nat): (r: Option<nat>)
    decreases |s| + 1 - from
    ensures r.Some? <==> EndsWith(s, literal) && from <= |s| - |literal|
    ensures r.Some? ==> r.value == |s| - |literal|
  {
    if from > |s| then None
    else if s[from..] == literal then Some(from)
    else FindEndAnchored(s, literal, from + 1)
  }

  /**
   * `s.replaceFirst(regex + "$", replacement)` for a regex in the literal fragment: the first
   * match, which can only be a trailing occurrence of the literal, is replaced; without a
   * match `s` comes back unchanged.
   */
  function ReplaceFirstEndAnchored(s: string, regex: string, replacement: string): (r: string)
    requires RegexLiteral(regex).Some?
    requires PlainReplacement(replacement)
    ensures var literal := RegexLiteral(regex).value;
      && (EndsWith(s, literal) ==> r == s[..|s| - |literal|] + replacement)
      && (!EndsWith(s, literal) ==> r == s)
  {
    match FindEndAnchored(s, RegexLiteral(regex).value, 0)
    case None => s
    case Some(i) => s[..i] + replacement
  }
}
