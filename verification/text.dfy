/**
 * The few pieces of java.lang.String and java.lang.Integer behaviour that the banking core relies on:
 * `isBlank`, `toUpperCase` / `toLowerCase` as used on enum names, and `Integer.toString` of a natural number.
 */
module Text {
  import opened Common

  /** Java's `Character.isWhitespace`: the Unicode space, line and paragraph separators other than the
      non-breaking ones (U+00A0, U+2007, U+202F), plus the controls U+0009..U+000D and U+001C..U+001F. */
  predicate IsWhitespace(c: char) {
    || ('\t' <= c <= '\r')
    || ('\U{1C}' <= c <= ' ')
    || c == '\U{1680}'
    || ('\U{2000}' <= c <= '\U{2006}')
    || ('\U{2008}' <= c <= '\U{200A}')
    || c == '\U{2028}' || c == '\U{2029}' || c == '\U{205F}' || c == '\U{3000}'
  }

  /** `String.isBlank`: empty, or white space only. */
  predicate IsBlank(s: string) {
    forall i :: 0 <= i < |s| ==> IsWhitespace(s[i])
  }

  /** The Java null-or-blank test `s == null || s.isBlank()`. */
  predicate IsNullOrBlank(s: Option<string>) {
    s.None? || IsBlank(s.value)
  }

  /** Single-character upper case in the root locale, for every character whose upper case is one ASCII
      letter: the ASCII letters, dotless i (U+0131) and long s (U+017F). Other characters are left as they are:
      their upper case is no ASCII letter, or is several of them, which `UpperText` gives. */
  function UpperChar(c: char): (u: char)
    ensures 'a' <= c <= 'z' ==> u as int == c as int - 32
    ensures ('A' <= u <= 'Z') ==> ('A' <= c <= 'Z' || 'a' <= c <= 'z' || c == '\U{0131}' || c == '\U{017F}')
  {
    if 'a' <= c <= 'z' then (c as int - 32) as char
    else if c == '\U{0131}' then 'I'
    else if c == '\U{017F}' then 'S'
    else c
  }

  /** The characters whose upper case is several ASCII letters: sharp s (U+00DF) and the Latin ligatures
      U+FB00..U+FB06. */
  predicate Expands(c: char) {
    c == '\U{00DF}' || '\U{FB00}' <= c <= '\U{FB06}'
  }

  /** The two-letter openings of those expansions: SS, FF, FI, FL and ST. */
  predicate ExpansionPair(a: char, b: char) {
    (a == 'S' && (b == 'S' || b == 'T')) || (a == 'F' && (b == 'F' || b == 'I' || b == 'L'))
  }

  /** Upper case of one character as text: sharp s is "SS", the ligatures ff, fi, fl, ffi, ffl, long-s t and st
      are "FF", "FI", "FL", "FFI", "FFL", "ST" and "ST"; every other character maps to one (see UpperChar). */
  function UpperText(c: char): (u: string)
    ensures !Expands(c) <==> u == [UpperChar(c)]
    ensures Expands(c) ==> 2 <= |u| <= 3 && IsUpperAscii(u) && ExpansionPair(u[0], u[1])
  {
    if c == '\U{00DF}' then "SS"
    else if c == '\U{FB00}' then "FF"
    else if c == '\U{FB01}' then "FI"
    else if c == '\U{FB02}' then "FL"
    else if c == '\U{FB03}' then "FFI"
    else if c == '\U{FB04}' then "FFL"
    else if c == '\U{FB05}' || c == '\U{FB06}' then "ST"
    else [UpperChar(c)]
  }

  /** The texts of a sequence, one after another. */
  function Concat(ts: seq<string>): string {
    if ts == [] then [] else ts[0] + Concat(ts[1..])
  }

  /** `String.toUpperCase`: the upper case of each character in turn. */
  function ToUpper(s: string): string {
    Concat(seq(|s|, i requires 0 <= i < |s| => UpperText(s[i])))
  }

  /** Upper-casing works from the first character on. */
  lemma ToUpperCons(s: string)
    requires s != []
    ensures ToUpper(s) == UpperText(s[0]) + ToUpper(s[1..])
  {
    var ts := seq(|s|, i requires 0 <= i < |s| => UpperText(s[i]));
    assert ts[1..] == seq(|s| - 1, i requires 0 <= i < |s| - 1 => UpperText(s[1..][i]));
  }

  /** Upper-casing never shortens a text. Without sharp s or ligatures it keeps the length and maps each
      character on its own. */
  lemma {:induction false} ToUpperCharwise(s: string)
    ensures |ToUpper(s)| >= |s|
    ensures (forall i :: 0 <= i < |s| ==> !Expands(s[i]))
            ==> |ToUpper(s)| == |s| && forall i :: 0 <= i < |s| ==> ToUpper(s)[i] == UpperChar(s[i])
  {
    if s != [] {
      ToUpperCons(s);
      ToUpperCharwise(s[1..]);
      var r := ToUpper(s);
      assert (forall i :: 0 <= i < |s| ==> !Expands(s[i])) ==> forall i :: 1 <= i < |s| ==> r[i] == ToUpper(s[1..])[i - 1];
    }
  }

  /** Text that no expansion can produce: upper-case ASCII with none of the pairs SS, FF, FI, FL, ST. */
  predicate PlainName(name: string) {
    IsUpperAscii(name) && forall i :: 0 <= i < |name| - 1 ==> !ExpansionPair(name[i], name[i + 1])
  }

  /** A name free of expansion pairs does not open with one. */
  lemma PlainNameOpening(u: string, rest: string)
    requires PlainName(u + rest)
    ensures |u| >= 2 ==> !ExpansionPair(u[0], u[1])
  {
    if |u| >= 2 {
      assert (u + rest)[0] == u[0] && (u + rest)[1] == u[1];
    }
  }

  /** Upper-casing gives such a name exactly when the text has the name's length, no sharp s or ligature, and
      each character upper-cases on its own to the name's letter: the expansions never matter for it. */
  lemma {:induction false} ToUpperIsPlainName(s: string, name: string)
    requires PlainName(name)
    ensures ToUpper(s) == name
        <==> |s| == |name| && forall i :: 0 <= i < |s| ==> !Expands(s[i]) && UpperChar(s[i]) == name[i]
  {
    ToUpperCharwise(s);
    if s != [] && ToUpper(s) == name {
      var u := UpperText(s[0]);
      ToUpperCons(s);
      PlainNameOpening(u, ToUpper(s[1..]));
      var rest := name[1..];
      assert PlainName(rest) by {
        forall i | 0 <= i < |rest| - 1 ensures !ExpansionPair(rest[i], rest[i + 1]) {
          assert rest[i] == name[i + 1] && rest[i + 1] == name[i + 2];
        }
      }
      ToUpperIsPlainName(s[1..], rest);
      assert ToUpper(s[1..]) == rest;
      forall i | 1 <= i < |s| ensures !Expands(s[i]) && UpperChar(s[i]) == name[i] {
        assert s[1..][i - 1] == s[i] && rest[i - 1] == name[i];
      }
    }
  }

  /** Lower case of an ASCII character; used only on enum constant names, which are ASCII. */
  function LowerChar(c: char): (l: char)
    ensures 'A' <= c <= 'Z' ==> l as int == c as int + 32
    ensures !('A' <= c <= 'Z') ==> l == c
  {
    if 'A' <= c <= 'Z' then (c as int + 32) as char else c
  }

  /** `String.toLowerCase` on an ASCII string. */
  function ToLower(s: string): (r: string)
    ensures |r| == |s|
    ensures forall i :: 0 <= i < |s| ==> r[i] == LowerChar(s[i])
  {
    seq(|s|, i requires 0 <= i < |s| => LowerChar(s[i]))
  }

  predicate IsUpperAscii(s: string) {
    forall i :: 0 <= i < |s| ==> 'A' <= s[i] <= 'Z'
  }

  /** Lower-casing an upper-case ASCII name and upper-casing it again gives the name back. */
  lemma UpperOfLower(s: string)
    requires IsUpperAscii(s)
    ensures ToUpper(ToLower(s)) == s
  {
    ToUpperCharwise(ToLower(s));
    assert forall i :: 0 <= i < |s| ==> ToUpper(ToLower(s))[i] == s[i];
  }

  // ----- decimal digits -----

  function DigitChar(d: nat): (c: char)
    requires d < 10
    ensures '0' <= c <= '9'
    ensures c as int - '0' as int == d
  {
    ('0' as int + d) as char
  }

  predicate IsDigit(c: char) { '0' <= c <= '9' }

  predicate AllDigits(s: string) {
    forall i :: 0 <= i < |s| ==> IsDigit(s[i])
  }

  /** `Integer.toString(n)` for n >= 0: the shortest decimal text, without sign or leading zeros. */
  function NatToDecimal(n: nat): (s: string)
    decreases n
  {
    if n < 10 then [DigitChar(n)] else NatToDecimal(n / 10) + [DigitChar(n % 10)]
  }

  /** The value of a string of decimal digits (`Integer.parseInt` restricted to digit strings). */
  function DecimalValue(s: string): nat
    requires AllDigits(s)
  {
    if s == [] then 0
    else DecimalValue(s[..|s| - 1]) * 10 + (s[|s| - 1] as int - '0' as int)
  }

  function Pow10(k: nat): (p: nat)
    ensures p >= 1
  {
    if k == 0 then 1 else 10 * Pow10(k - 1)
  }

  /** Integer.toString produces digits only, and parsing them gives the number back. */
  lemma {:induction false} NatToDecimalRoundTrip(n: nat)
    ensures AllDigits(NatToDecimal(n))
    ensures DecimalValue(NatToDecimal(n)) == n
    decreases n
  {
    if n >= 10 {
      NatToDecimalRoundTrip(n / 10);
      var s := NatToDecimal(n);
      assert s[..|s| - 1] == NatToDecimal(n / 10);
    }
  }

  /** A number with exactly k decimal digits prints as k characters. */
  lemma {:induction false} NatToDecimalLength(n: nat, k: nat)
    requires k >= 1
    requires Pow10(k - 1) <= n < Pow10(k)
    ensures |NatToDecimal(n)| == k
    decreases k
  {
    if k > 1 {
      NatToDecimalLength(n / 10, k - 1);
    } else {
      assert n < 10;
    }
  }
}
