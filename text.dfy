/**
 * The handful of Python string and path operations the backup client relies on:
 * `str(n)` and `int(s)` on decimal digits, `str.split('\n')`, `str.strip(chars)`,
 * `str.startswith` and `os.path.join` with two arguments.
 */
module Text {

  predicate IsDigit(c: char) { '0' <= c <= '9' }

  predicate AllDigits(s: string) { forall i :: 0 <= i < |s| ==> IsDigit(s[i]) }

  function DigitValue(c: char): (d: nat)
    requires IsDigit(c)
    ensures d < 10
  {
    c as int - '0' as int
  }

  function DigitChar(d: nat): (c: char)
    requires d < 10
    ensures IsDigit(c) && DigitValue(c) == d
  {
    (d + '0' as int) as char
  }

  /** Python's `str(n)` for a non-negative integer. */
  function NatToString(n: nat): (s: string)
    ensures |s| > 0 && AllDigits(s)
  {
    if n < 10 then [DigitChar(n)] else NatToString(n / 10) + [DigitChar(n % 10)]
  }

  /** Python's `int(s)` for a non-empty string of ASCII digits (leading zeros allowed). */
  function DecimalValue(s: string): nat
    requires AllDigits(s)
  {
    if |s| == 0 then 0 else DecimalValue(s[..|s| - 1]) * 10 + DigitValue(s[|s| - 1])
  }

  lemma {:induction false} DecimalValueOfNatToString(n: nat)
    ensures DecimalValue(NatToString(n)) == n
  {
    if n >= 10 {
      var s := NatToString(n);
      assert s[..|s| - 1] == NatToString(n / 10);
      DecimalValueOfNatToString(n / 10);
    }
  }

  predicate StartsWith(s: string, prefix: string)
  {
    |prefix| <= |s| && s[..|prefix|] == prefix
  }

  predicate EndsWith(s: string, suffix: string)
  {
    |suffix| <= |s| && s[|s| - |suffix|..] == suffix
  }

  /** `q` occurs in `s` starting at index `i`. */
  predicate OccursAt(s: string, i: nat, q: string)
  {
    i + |q| <= |s| && s[i..i + |q|] == q
  }

  predicate Contains(s: string, q: string)
  {
    exists i :: 0 <= i <= |s| && OccursAt(s, i, q)
  }

  /** Python's `s.split(sep)` for a one-character separator. */
  function Split(s: string, sep: char): (parts: seq<string>)
    ensures |parts| > 0
    ensures forall i :: 0 <= i < |parts| ==> sep !in parts[i]
  {
    if |s| == 0 then [""]
    else if s[0] == sep then [""] + Split(s[1..], sep)
    else
      var rest := Split(s[1..], sep);
      [[s[0]] + rest[0]] + rest[1..]
  }

  /** Python's `sep.join(parts)`. */
  function Join(parts: seq<string>, sep: char): string
  {
    if |parts| == 0 then ""
    else if |parts| == 1 then parts[0]
    else parts[0] + [sep] + Join(parts[1..], sep)
  }

  /** Splitting loses nothing: joining the lines back gives the original text. */
  lemma {:induction false} JoinSplit(s: string, sep: char)
    ensures Join(Split(s, sep), sep) == s
  {
    if |s| > 0 {
      JoinSplit(s[1..], sep);
      var rest := Split(s[1..], sep);
      if s[0] != sep {
        if |rest| == 1 {
          assert Split(s, sep) == [[s[0]] + rest[0]];
        } else {
          var parts := Split(s, sep);
          assert parts[1..] == rest[1..];
          assert Join(rest, sep) == rest[0] + [sep] + Join(rest[1..], sep);
        }
      }
    }
  }

  /** Python's `s.lstrip(chars)`: drop leading characters that are in `chars`. */
  function TrimStart(s: string, chars: set<char>): (r: string)
    ensures |r| <= |s| && r == s[|s| - |r|..]
    ensures |r| > 0 ==> r[0] !in chars
    ensures forall i :: 0 <= i < |s| - |r| ==> s[i] in chars
  {
    if |s| > 0 && s[0] in chars then TrimStart(s[1..], chars) else s
  }

  /** Python's `s.rstrip(chars)`: drop trailing characters that are in `chars`. */
  function TrimEnd(s: string, chars: set<char>): (r: string)
    ensures |r| <= |s| && r == s[..|r|]
    ensures |r| > 0 ==> r[|r| - 1] !in chars
    ensures forall i :: |r| <= i < |s| ==> s[i] in chars
  {
    if |s| > 0 && s[|s| - 1] in chars then TrimEnd(s[..|s| - 1], chars) else s
  }

  /** Python's `s.strip(chars)`. */
  function Strip(s: string, chars: set<char>): string
  {
    TrimEnd(TrimStart(s, chars), chars)
  }

  /**
   * What `Strip` means: the result is a contiguous piece of `s`, everything cut
   * off on either side is in `chars`, and the result neither starts nor ends with
   * a character of `chars`.
   */
  lemma StripIsMaximalInfix(s: string, chars: set<char>)
    ensures var r := Strip(s, chars);
      && |r| <= |s|
      && (exists i :: 0 <= i <= |s| && OccursAt(s, i, r)
            && (forall k :: 0 <= k < i ==> s[k] in chars)
            && (forall k :: i + |r| <= k < |s| ==> s[k] in chars))
      && (|r| > 0 ==> r[0] !in chars && r[|r| - 1] !in chars)
  {
    var t := TrimStart(s, chars);
    var r := TrimEnd(t, chars);
    var i := |s| - |t|;
    assert OccursAt(s, i, r);
    assert |r| > 0 ==> r[0] == t[0];
  }

  /** Stripping twice is stripping once. */
  lemma StripIdempotent(s: string, chars: set<char>)
    ensures Strip(Strip(s, chars), chars) == Strip(s, chars)
  {
    var r := Strip(s, chars);
    StripIsMaximalInfix(s, chars);
    assert TrimStart(r, chars) == r;
    assert TrimEnd(r, chars) == r;
  }

  /** The characters Python's argument-less `str.strip()` removes (`str.isspace`). */
  const Whitespace: set<char> := {
    '\U{0020}', '\U{0009}', '\U{000A}', '\U{000B}', '\U{000C}', '\U{000D}', '\U{001C}', '\U{001D}',
    '\U{001E}', '\U{001F}', '\U{0085}', '\U{00A0}', '\U{1680}', '\U{2000}', '\U{2001}', '\U{2002}',
    '\U{2003}', '\U{2004}', '\U{2005}', '\U{2006}', '\U{2007}', '\U{2008}', '\U{2009}', '\U{200A}',
    '\U{2028}', '\U{2029}', '\U{202F}', '\U{205F}', '\U{3000}'
  }

  /** Python's `os.path.join(dir, name)` on POSIX. */
  function PathJoin(dir: string, name: string): (p: string)
    ensures !StartsWith(name, "/") ==> EndsWith(p, name) && StartsWith(p, dir)
  {
    if StartsWith(name, "/") then name
    else if |dir| == 0 || dir[|dir| - 1] == '/' then dir + name
    else dir + "/" + name
  }

  /** Concatenation regroups freely. */
  lemma ConcatAssociative<T>(a: seq<T>, b: seq<T>, c: seq<T>)
    ensures a + b + c == a + (b + c)
  {
  }

  /** Python's `c.upper()` for an ASCII character. */
  function UpperChar(c: char): (u: char)
    ensures 'a' <= c <= 'z' ==> 'A' <= u <= 'Z' && u as int == c as int - 32
    ensures !('a' <= c <= 'z') ==> u == c
  {
    if 'a' <= c <= 'z' then (c as int - 32) as char else c
  }

  /** Python's `s.upper()` on ASCII text. */
  function AsciiUpper(s: string): (u: string)
    ensures |u| == |s|
  {
    if |s| == 0 then "" else [UpperChar(s[0])] + AsciiUpper(s[1..])
  }

  /** A string is the upper case of another when each of its characters is. */
  lemma {:induction false} AsciiUpperOf(s: string, u: string)
    requires |u| == |s|
    requires forall k :: 0 <= k < |s| ==> u[k] == UpperChar(s[k])
    ensures AsciiUpper(s) == u
  {
    if |s| > 0 {
      AsciiUpperOf(s[1..], u[1..]);
      assert u == [u[0]] + u[1..];
    }
  }

  /** `AsciiUpper` works character by character. */
  lemma {:induction false} AsciiUpperAt(s: string, i: nat)
    requires i < |s|
    ensures AsciiUpper(s)[i] == UpperChar(s[i])
  {
    if i > 0 {
      AsciiUpperAt(s[1..], i - 1);
    }
  }
}
