/**
 * The few JavaScript string primitives the script relies on:
 * the whitespace class shared by the regular-expression escape `\s` and
 * `String.prototype.trim`, `String.prototype.includes`, and the decimal
 * rendering of a non-negative integer in a template literal.
 */
module JsString {

  /**
   * ECMA-262 WhiteSpace (section 12.2) plus LineTerminator (section 12.3):
   * TAB, VT, FF, SPACE, NBSP, ZWNBSP, the Unicode Zs characters, LF, CR,
   * LINE SEPARATOR and PARAGRAPH SEPARATOR.
   */
  predicate IsWhitespace(c: char) {
    || ('\U{0009}' <= c <= '\U{000D}') || c == '\U{0020}' || c == '\U{00A0}'
    || c == '\U{1680}' || ('\U{2000}' <= c <= '\U{200A}')
    || c == '\U{2028}' || c == '\U{2029}' || c == '\U{202F}' || c == '\U{205F}'
    || c == '\U{3000}' || c == '\U{FEFF}'
  }

  predicate IsDigit(c: char) {
    '0' <= c <= '9'
  }

  /** `pattern` occurs in `s` starting at index `i`. */
  ghost predicate OccursAt(s: string, pattern: string, i: int) {
    0 <= i && i + |pattern| <= |s| && s[i..i + |pattern|] == pattern
  }

  /** `s.includes(pattern)`: a left-to-right search for `pattern` in `s`. */
  function Includes(s: string, pattern: string): (b: bool)
    ensures b <==> exists i :: OccursAt(s, pattern, i)
    decreases |s|
  {
    if pattern <= s then
      assert OccursAt(s, pattern, 0);
      true
    else if |s| == 0 then
      assert forall i :: !OccursAt(s, pattern, i);
      false
    else
      var rest := Includes(s[1..], pattern);
      if rest then
        assert exists i :: OccursAt(s, pattern, i) by {
          var i :| OccursAt(s[1..], pattern, i);
          assert s[i + 1..i + 1 + |pattern|] == s[1..][i..i + |pattern|];
          assert OccursAt(s, pattern, i + 1);
        }
        true
      else
        assert forall i :: OccursAt(s, pattern, i) ==> i > 0 && OccursAt(s[1..], pattern, i - 1) by {
          forall i | OccursAt(s, pattern, i) ensures i > 0 && OccursAt(s[1..], pattern, i - 1) {
            assert s[1..][i - 1..i - 1 + |pattern|] == s[i..i + |pattern|];
          }
        }
        false
  }

  /** A single pattern character that `s` never contains rules the pattern out. */
  lemma {:induction false} AbsentCharExcludesPattern(s: string, pattern: string, k: nat)
    requires k < |pattern|
    requires forall j :: 0 <= j < |s| ==> s[j] != pattern[k]
    ensures !Includes(s, pattern)
  {
    forall i ensures !OccursAt(s, pattern, i) {
      if 0 <= i && i + |pattern| <= |s| {
        assert s[i..i + |pattern|][k] == s[i + k];
      }
    }
  }

  lemma CharAbsentFromConcat(a: string, b: string, c: char)
    requires forall j :: 0 <= j < |a| ==> a[j] != c
    requires forall j :: 0 <= j < |b| ==> b[j] != c
    ensures forall j :: 0 <= j < |a + b| ==> (a + b)[j] != c
  {
  }

  /** The number a string of decimal digits spells, read left to right. */
  ghost function DigitsValue(s: string): int
    decreases |s|
  {
    if s == [] then 0 else 10 * DigitsValue(s[..|s| - 1]) + (s[|s| - 1] as int - '0' as int)
  }

  /** The decimal digits of `n`, as `${n}` renders a non-negative integer: no leading zero. */
  function NatToString(n: nat): (r: string)
    ensures |r| > 0
    ensures forall j :: 0 <= j < |r| ==> IsDigit(r[j])
    ensures n < 10 ==> |r| == 1
    ensures DigitsValue(r) == n
    ensures |r| > 1 ==> r[0] != '0'
  {
    var digit := [('0' as int + n % 10) as char];
    if n < 10 then
      assert DigitsValue(digit) == 10 * DigitsValue([]) + n % 10 by {
        assert digit[..0] == [];
      }
      digit
    else
      var prefix := NatToString(n / 10);
      var r := prefix + digit;
      assert r[..|r| - 1] == prefix;
      assert |prefix| == 1 ==> prefix[0] != '0' by {
        if |prefix| == 1 {
          assert prefix[..0] == [];
          assert DigitsValue(prefix) == prefix[0] as int - '0' as int;
        }
      }
      r
  }
}
