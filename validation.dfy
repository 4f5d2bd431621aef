/**
 * The input helpers of frontend-config.js: the two fixed regular
 * expressions of `isValidEmail` and `isValidPhone`, matched by hand and
 * proved equal to a reading of the pattern, and `sanitizeInput`.
 */
module Validation {
  import opened JsString

  /** The class `[^\s@]`. */
  predicate IsPlain(c: char) {
    !IsWhitespace(c) && c != '@'
  }

  predicate AllPlain(s: string) {
    forall k :: 0 <= k < |s| ==> IsPlain(s[k])
  }

  /** Index of the first `c` in `s`, or `|s|` when there is none. */
  function IndexOf(s: string, c: char): (i: nat)
    ensures i <= |s|
    ensures i < |s| ==> s[i] == c
    ensures forall k :: 0 <= k < i ==> s[k] != c
    decreases |s|
  {
    if s == [] || s[0] == c then 0 else 1 + IndexOf(s[1..], c)
  }

  /**
   * `isValidEmail`: `/^[^\s@]+@[^\s@]+\.[^\s@]+$/`, matched by splitting at
   * the first `@`: a non-empty local part, and a domain of `[^\s@]`
   * characters with a `.` that is neither its first nor its last character.
   */
  predicate IsValidEmail(email: string) {
    var at := IndexOf(email, '@');
    && 0 < at < |email|
    && AllPlain(email[..at])
    && var domain := email[at + 1..];
       && AllPlain(domain)
       && 3 <= |domain|
       && '.' in domain[1..|domain| - 1]
  }

  /** Every character of `s[lo..hi]` is in `[^\s@]`. */
  ghost predicate PlainBetween(s: string, lo: int, hi: int) {
    forall k :: lo <= k < hi && 0 <= k < |s| ==> IsPlain(s[k])
  }

  /** The pattern read piece by piece: `L @ A . B` with `L`, `A`, `B` non-empty runs of `[^\s@]`. */
  ghost predicate MatchesEmailPattern(s: string) {
    exists a, d :: 0 < a && a + 1 < d && d + 1 < |s| && s[a] == '@' && s[d] == '.'
                   && PlainBetween(s, 0, a) && PlainBetween(s, a + 1, d) && PlainBetween(s, d + 1, |s|)
  }

  /** What the matcher accepts, the pattern describes. */
  lemma ValidEmailMatches(s: string)
    requires IsValidEmail(s)
    ensures MatchesEmailPattern(s)
  {
    var a := IndexOf(s, '@');
    var domain := s[a + 1..];
    var inner := domain[1..|domain| - 1];
    var p :| 0 <= p < |inner| && inner[p] == '.';
    var d := a + 2 + p;
    assert s[d] == '.' by {
      assert inner[p] == domain[p + 1];
    }
    assert PlainBetween(s, 0, a) by {
      forall k | 0 <= k < a ensures IsPlain(s[k]) {
        assert s[k] == s[..a][k];
      }
    }
    assert PlainBetween(s, a + 1, |s|) by {
      forall k | a + 1 <= k < |s| ensures IsPlain(s[k]) {
        assert s[k] == domain[k - a - 1];
      }
    }
    assert PlainBetween(s, a + 1, d) && PlainBetween(s, d + 1, |s|);
  }

  /** What the pattern describes, the matcher accepts. */
  lemma MatchingEmailValid(s: string, a: int, d: int)
    requires 0 < a && a + 1 < d && d + 1 < |s| && s[a] == '@' && s[d] == '.'
    requires PlainBetween(s, 0, a) && PlainBetween(s, a + 1, d) && PlainBetween(s, d + 1, |s|)
    ensures IsValidEmail(s)
  {
    assert IndexOf(s, '@') == a;
    var domain := s[a + 1..];
    assert AllPlain(s[..a]) by {
      forall k | 0 <= k < a ensures IsPlain(s[..a][k]) {
        assert s[..a][k] == s[k];
      }
    }
    assert AllPlain(domain) by {
      forall k | 0 <= k < |domain| ensures IsPlain(domain[k]) {
        assert domain[k] == s[a + 1 + k];
      }
    }
    var inner := domain[1..|domain| - 1];
    assert inner[d - a - 2] == '.';
  }

  /** The matcher accepts exactly the strings the pattern describes. */
  lemma EmailMatchesPattern(s: string)
    ensures IsValidEmail(s) <==> MatchesEmailPattern(s)
  {
    if IsValidEmail(s) {
      ValidEmailMatches(s);
    }
    if MatchesEmailPattern(s) {
      var a, d :| 0 < a && a + 1 < d && d + 1 < |s| && s[a] == '@' && s[d] == '.'
                  && PlainBetween(s, 0, a) && PlainBetween(s, a + 1, d) && PlainBetween(s, d + 1, |s|);
      MatchingEmailValid(s, a, d);
    }
  }

  /** A valid email holds exactly one `@`, and it is not the first character. */
  lemma EmailHasOneAt(s: string)
    requires IsValidEmail(s)
    ensures exists a :: 0 < a < |s| && s[a] == '@'
    ensures forall j, k :: 0 <= j < |s| && 0 <= k < |s| && s[j] == '@' && s[k] == '@' ==> j == k
  {
    var a := IndexOf(s, '@');
    forall j | a < j < |s| ensures s[j] != '@' {
      assert s[j] == s[a + 1..][j - a - 1];
    }
  }

  lemma AcceptedEmailExample()
    ensures IsValidEmail("a@b.com")
  {
    var ok: string := "a@b.com";
    assert ok == ['a', '@', 'b', '.', 'c', 'o', 'm'];
    assert IsPlain('a') && IsPlain('b') && IsPlain('c') && IsPlain('o') && IsPlain('m');
    assert PlainBetween(ok, 0, 1) && PlainBetween(ok, 2, 3) && PlainBetween(ok, 4, 7);
    MatchingEmailValid(ok, 1, 3);
  }

  lemma RejectedEmailExamples()
    ensures !IsValidEmail("a@@b")
    ensures !IsValidEmail("a@b.")
  {
    var twice: string := "a@@b";
    assert IndexOf(twice, '@') == 1;
    assert twice[2..][0] == '@';
    var dotLast: string := "a@b.";
    assert IndexOf(dotLast, '@') == 1;
    assert dotLast[2..] == "b.";
    assert "b."[1..1] == [];
  }

  /** `a@b.com` is accepted; `a@@b` (a second `@`) and `a@b.` (the dot last) are not. */
  lemma EmailExamples()
    ensures IsValidEmail("a@b.com")
    ensures !IsValidEmail("a@@b")
    ensures !IsValidEmail("a@b.")
  {
    AcceptedEmailExample();
    RejectedEmailExamples();
  }

  /** The class `[0-9\s\-\(\)]`. */
  predicate IsPhoneChar(c: char) {
    IsDigit(c) || IsWhitespace(c) || c == '-' || c == '(' || c == ')'
  }

  predicate AllPhone(s: string) {
    forall k :: 0 <= k < |s| ==> IsPhoneChar(s[k])
  }

  /** `isValidPhone`: `/^[\+]?[0-9\s\-\(\)]{10,}$/`, matched by dropping one leading `+`. */
  predicate IsValidPhone(phone: string) {
    var body := if |phone| > 0 && phone[0] == '+' then phone[1..] else phone;
    10 <= |body| && AllPhone(body)
  }

  /** The pattern read as its two alternatives: without the `+`, or with it. */
  ghost predicate MatchesPhonePattern(s: string) {
    || (10 <= |s| && AllPhone(s))
    || (11 <= |s| && s[0] == '+' && AllPhone(s[1..]))
  }

  /** The matcher accepts exactly the strings the pattern describes. */
  lemma PhoneMatchesPattern(s: string)
    ensures IsValidPhone(s) <==> MatchesPhonePattern(s)
  {
    if |s| > 0 && s[0] == '+' {
      assert !IsPhoneChar(s[0]);
    }
  }

  /** `+256 700 123456` is accepted; `12345` is too short. */
  lemma PhoneExamples()
    ensures IsValidPhone("+256 700 123456")
    ensures !IsValidPhone("12345")
  {
    var ok: string := "+256 700 123456";
    var body := ok[1..];
    assert body == "256 700 123456";
    assert forall k :: 0 <= k < |body| ==> IsPhoneChar(body[k]);
  }

  /** A `+` can only stand first, and with it at least eleven characters are needed. */
  lemma PhonePlusOnlyLeading(s: string)
    requires IsValidPhone(s)
    ensures forall k :: 0 < k < |s| ==> s[k] != '+'
    ensures |s| > 0 && s[0] == '+' ==> 11 <= |s|
  {
    forall k | 0 < k < |s| ensures s[k] != '+' {
      if s[0] == '+' {
        assert s[k] == s[1..][k - 1];
      }
    }
  }

  /** Every character of `s[lo..hi]` is whitespace. */
  ghost predicate WhitespaceBetween(s: string, lo: int, hi: int) {
    forall k :: lo <= k < hi && 0 <= k < |s| ==> IsWhitespace(s[k])
  }

  /** Whitespace in a suffix of `s` is whitespace in `s`, shifted by where the suffix starts. */
  lemma WhitespaceInSuffix(s: string, i: int, lo: int, hi: int)
    requires 0 <= i <= |s| && 0 <= lo
    requires WhitespaceBetween(s[i..], lo, hi)
    ensures WhitespaceBetween(s, lo + i, hi + i)
  {
    forall k | lo + i <= k < hi + i && k < |s| ensures IsWhitespace(s[k]) {
      assert s[k] == s[i..][k - i];
    }
  }

  /** Whitespace in a prefix of `s` is whitespace in `s` at the same positions. */
  lemma WhitespaceInPrefix(s: string, n: int, lo: int, hi: int)
    requires 0 <= n <= |s|
    requires WhitespaceBetween(s[..n], lo, hi)
    ensures WhitespaceBetween(s, lo, if hi < n then hi else n)
  {
    forall k | lo <= k < hi && k < n && 0 <= k ensures IsWhitespace(s[k]) {
      assert s[k] == s[..n][k];
    }
  }

  /** Leading whitespace removed. */
  function TrimStart(s: string): (r: string)
    ensures |r| <= |s|
    decreases |s|
  {
    if |s| > 0 && IsWhitespace(s[0]) then TrimStart(s[1..]) else s
  }

  /** Trailing whitespace removed. */
  function TrimEnd(s: string): (r: string)
    ensures |r| <= |s|
    decreases |s|
  {
    if |s| > 0 && IsWhitespace(s[|s| - 1]) then TrimEnd(s[..|s| - 1]) else s
  }

  /** `TrimStart` leaves a suffix of `s` after a whitespace-only prefix, starting at a non-whitespace character. */
  lemma {:induction false} TrimStartIsSuffix(s: string)
    ensures TrimStart(s) == s[|s| - |TrimStart(s)|..]
    ensures WhitespaceBetween(s, 0, |s| - |TrimStart(s)|)
    ensures TrimStart(s) != [] ==> !IsWhitespace(TrimStart(s)[0])
    decreases |s|
  {
    if |s| > 0 && IsWhitespace(s[0]) {
      var r := TrimStart(s[1..]);
      TrimStartIsSuffix(s[1..]);
      WhitespaceInSuffix(s, 1, 0, |s| - 1 - |r|);
      assert s[1..][|s| - 1 - |r|..] == s[|s| - |r|..];
    }
  }

  /** `TrimEnd` leaves a prefix of `s` before a whitespace-only suffix, ending at a non-whitespace character. */
  lemma {:induction false} TrimEndIsPrefix(s: string)
    ensures TrimEnd(s) == s[..|TrimEnd(s)|]
    ensures WhitespaceBetween(s, |TrimEnd(s)|, |s|)
    ensures TrimEnd(s) != [] ==> !IsWhitespace(TrimEnd(s)[|TrimEnd(s)| - 1])
    decreases |s|
  {
    if |s| > 0 && IsWhitespace(s[|s| - 1]) {
      var r := TrimEnd(s[..|s| - 1]);
      TrimEndIsPrefix(s[..|s| - 1]);
      WhitespaceInPrefix(s, |s| - 1, |r|, |s| - 1);
      assert s[..|s| - 1][..|r|] == s[..|r|];
    }
  }

  /** `String.prototype.trim`. */
  function Trim(s: string): string {
    TrimEnd(TrimStart(s))
  }

  /** `s[i..j]` is `s` with all leading and trailing whitespace cut off. */
  ghost predicate TrimmedAt(s: string, i: int, j: int) {
    && 0 <= i <= j <= |s|
    && WhitespaceBetween(s, 0, i) && WhitespaceBetween(s, j, |s|)
    && (i < j ==> !IsWhitespace(s[i]) && !IsWhitespace(s[j - 1]))
  }

  /** `Trim` cuts off exactly the leading and trailing whitespace. */
  lemma TrimIsTrimmedSlice(s: string)
    ensures TrimmedAt(s, |s| - |TrimStart(s)|, |s| - |TrimStart(s)| + |Trim(s)|)
    ensures Trim(s) == s[|s| - |TrimStart(s)|..|s| - |TrimStart(s)| + |Trim(s)|]
  {
    var t := TrimStart(s);
    var i := |s| - |t|;
    var r := TrimEnd(t);
    var j := i + |r|;
    TrimStartIsSuffix(s);
    TrimEndIsPrefix(t);
    assert t == s[i..];
    assert r == s[i..j] by {
      assert r == t[..|r|];
      assert s[i..][..|r|] == s[i..j];
    }
    assert WhitespaceBetween(s, j, |s|) by {
      assert WhitespaceBetween(s[i..], |r|, |s[i..]|);
      WhitespaceInSuffix(s, i, |r|, |t|);
    }
    if i < j {
      assert s[i] == r[0] && s[j - 1] == r[|r| - 1];
    }
    assert TrimmedAt(s, i, j);
  }

  /** Any two ways of cutting off the surrounding whitespace leave the same string. */
  lemma TrimmedSliceUnique(s: string, i: int, j: int, i': int, j': int)
    requires TrimmedAt(s, i, j) && TrimmedAt(s, i', j')
    ensures s[i..j] == s[i'..j']
  {
  }

  predicate IsAngle(c: char) {
    c == '<' || c == '>'
  }

  /** `.replace(/[<>]/g, '')`: every `<` and `>` removed, the rest kept in order. */
  function StripAngles(s: string): (r: string)
    ensures |r| <= |s|
    ensures forall k :: 0 <= k < |r| ==> !IsAngle(r[k])
    decreases |s|
  {
    if s == [] then []
    else (if IsAngle(s[0]) then [] else [s[0]]) + StripAngles(s[1..])
  }

  /** Removal works piecewise, so the kept characters stay in their order. */
  lemma {:induction false} StripAnglesAppend(a: string, b: string)
    ensures StripAngles(a + b) == StripAngles(a) + StripAngles(b)
    decreases |a|
  {
    if a == [] {
      assert a + b == b;
    } else {
      assert (a + b)[0] == a[0];
      assert (a + b)[1..] == a[1..] + b;
      StripAnglesAppend(a[1..], b);
    }
  }

  /** A string without `<` and `>` is left as it is. */
  lemma {:induction false} StripAnglesKeepsClean(s: string)
    requires forall k :: 0 <= k < |s| ==> !IsAngle(s[k])
    ensures StripAngles(s) == s
    decreases |s|
  {
    if s != [] {
      StripAnglesKeepsClean(s[1..]);
      assert s == [s[0]] + s[1..];
    }
  }

  /** Every character other than `<` and `>` keeps its number of occurrences. */
  lemma {:induction false} StripAnglesCounts(s: string, c: char)
    requires !IsAngle(c)
    ensures multiset(StripAngles(s))[c] == multiset(s)[c]
    decreases |s|
  {
    if s != [] {
      StripAnglesCounts(s[1..], c);
      var head := if IsAngle(s[0]) then [] else [s[0]];
      assert StripAngles(s) == head + StripAngles(s[1..]);
      assert multiset(StripAngles(s)) == multiset(head) + multiset(StripAngles(s[1..]));
      assert s == [s[0]] + s[1..];
      assert multiset(s) == multiset([s[0]]) + multiset(s[1..]);
      assert multiset(head)[c] == multiset([s[0]])[c];
    }
  }

  /** `sanitizeInput`'s argument: a string, or any other value. */
  datatype Input<T> = StringInput(text: string) | OtherInput(value: T)

  /** `sanitizeInput`: trim first, then remove every `<` and `>`; other values pass through. */
  function SanitizeInput<T>(input: Input<T>): (r: Input<T>)
    ensures input.OtherInput? ==> r == input
    ensures input.StringInput? ==> r.StringInput? && |r.text| <= |input.text|
    ensures input.StringInput? ==> forall k :: 0 <= k < |r.text| ==> !IsAngle(r.text[k])
  {
    match input
    case OtherInput(_) => input
    case StringInput(s) => StringInput(StripAngles(Trim(s)))
  }

  /**
   * The sanitized string is what remains of the input once the surrounding
   * whitespace is cut off and then the angle brackets are removed.
   */
  lemma SanitizeIsTrimThenStrip<T>(s: string)
    ensures exists i, j :: TrimmedAt(s, i, j) && SanitizeInput<T>(StringInput(s)).text == StripAngles(s[i..j])
  {
    TrimIsTrimmedSlice(s);
    var i := |s| - |TrimStart(s)|;
    assert TrimmedAt(s, i, i + |Trim(s)|);
  }

  lemma TrimKeepsExample()
    ensures Trim("< a") == "< a"
  {
    var x: string := "< a";
    assert x[0] == '<' && x[|x| - 1] == 'a';
    assert TrimStart(x) == x;
  }

  lemma TrimCutsExample()
    ensures Trim(" a") == "a"
  {
    var y: string := " a";
    assert y[0] == ' ' && y[1..] == "a";
    assert TrimStart(y) == "a";
  }

  lemma StripExample()
    ensures StripAngles("< a") == " a"
  {
    assert "< a"[1..] == " a";
    assert StripAngles(" a") == [' '] + StripAngles("a") by {
      assert " a"[1..] == "a";
    }
  }

  lemma TagTrimExample()
    ensures Trim("<b>hi</b>") == "<b>hi</b>"
  {
    var x: string := "<b>hi</b>";
    assert x[0] == '<' && x[|x| - 1] == '>';
    assert TrimStart(x) == x;
  }

  lemma StripAnglesCons(c: char, s: string)
    ensures StripAngles([c] + s) == (if IsAngle(c) then [] else [c]) + StripAngles(s)
  {
    assert ([c] + s)[1..] == s;
  }

  lemma CloseTagStripExample()
    ensures StripAngles("</b>") == "/b"
  {
    StripAnglesCons('>', "");
    StripAnglesCons('b', ">");
    StripAnglesCons('/', "b>");
    StripAnglesCons('<', "/b>");
  }

  lemma TagStripExample()
    ensures StripAngles("<b>hi</b>") == "bhi/b"
  {
    CloseTagStripExample();
    StripAnglesCons('i', "</b>");
    StripAnglesCons('h', "i</b>");
    StripAnglesCons('>', "hi</b>");
    StripAnglesCons('b', ">hi</b>");
    StripAnglesCons('<', "b>hi</b>");
  }

  /** Tags lose their brackets only: `<b>hi</b>` becomes `bhi/b`. */
  lemma SanitizeTagExample<T>()
    ensures SanitizeInput<T>(StringInput("<b>hi</b>")) == StringInput("bhi/b")
  {
    TagTrimExample();
    TagStripExample();
  }

  /**
   * Trimming comes before removal, so the result can still begin with
   * whitespace, and sanitizing twice differs from sanitizing once.
   */
  lemma SanitizeNotIdempotent<T>()
    ensures SanitizeInput<T>(StringInput("< a")) == StringInput(" a")
    ensures SanitizeInput<T>(SanitizeInput<T>(StringInput("< a"))) == StringInput("a")
  {
    TrimKeepsExample();
    TrimCutsExample();
    StripExample();
    StripAnglesKeepsClean("a");
  }
}
