/** Character classes and whitespace trimming, as Python's `str.strip()`
    and `str.isdigit()` are used by the date filter. */
module Text {

  /** Python's whitespace (`str.isspace`), which is what `str.strip()`
      with no argument removes: the C0 controls TAB..CR and FS..US, SPACE,
      NEL, NO-BREAK SPACE, OGHAM SPACE MARK, EN QUAD..HAIR SPACE, LINE and
      PARAGRAPH SEPARATOR, NARROW NO-BREAK SPACE, MEDIUM MATHEMATICAL SPACE
      and IDEOGRAPHIC SPACE. */
  predicate IsSpace(c: char) {
    ('\t' <= c <= '\r') || ('\U{1C}' <= c <= ' ') ||
    c == '\U{85}' || c == '\U{A0}' || c == '\U{1680}' ||
    ('\U{2000}' <= c <= '\U{200A}') ||
    c == '\U{2028}' || c == '\U{2029}' || c == '\U{202F}' ||
    c == '\U{205F}' || c == '\U{3000}'
  }

  /** A decimal digit; Python's `isdigit` also accepts non-ASCII digits,
      which this model does not. */
  predicate IsDigit(c: char)
    ensures IsDigit(c) ==> !IsSpace(c)
  {
    '0' <= c <= '9'
  }

  predicate HasDigit(s: string) {
    exists i :: 0 <= i < |s| && IsDigit(s[i])
  }

  predicate IsBlank(s: string) {
    forall i :: 0 <= i < |s| ==> IsSpace(s[i])
  }

  /** Neither end of `s` is whitespace: what a trimmed string looks like. */
  predicate IsTrimmed(s: string) {
    s == [] || (!IsSpace(s[0]) && !IsSpace(s[|s| - 1]))
  }

  /** Drop the leading whitespace. */
  function TrimStart(s: string): (r: string)
    ensures |r| <= |s|
    ensures r == [] || !IsSpace(r[0])
  {
    if s != [] && IsSpace(s[0]) then TrimStart(s[1..]) else s
  }

  /** Drop the trailing whitespace; what is left starts where `s` does. */
  function TrimEnd(s: string): (r: string)
    ensures |r| <= |s|
    ensures r == [] || !IsSpace(r[|r| - 1])
    ensures r == [] || r[0] == s[0]
  {
    if s != [] && IsSpace(s[|s| - 1]) then TrimEnd(s[..|s| - 1]) else s
  }

  /** Python's `s.strip()`: never longer than `s`, and with no whitespace
      left at either end. */
  function Trim(s: string): (r: string)
    ensures |r| <= |s|
    ensures IsTrimmed(r)
  {
    TrimEnd(TrimStart(s))
  }

  /** `TrimStart` removes a blank prefix and stops at the first
      non-whitespace character. */
  lemma {:induction false} TrimStartSplits(s: string) returns (a: string)
    ensures s == a + TrimStart(s) && IsBlank(a)
    ensures TrimStart(s) == [] || !IsSpace(TrimStart(s)[0])
  {
    if s != [] && IsSpace(s[0]) {
      var a' := TrimStartSplits(s[1..]);
      a := [s[0]] + a';
      assert s == [s[0]] + s[1..];
    } else {
      a := [];
    }
  }

  /** `TrimEnd` removes a blank suffix and stops at the last
      non-whitespace character. */
  lemma {:induction false} TrimEndSplits(s: string) returns (b: string)
    ensures s == TrimEnd(s) + b && IsBlank(b)
    ensures TrimEnd(s) == [] || !IsSpace(TrimEnd(s)[|TrimEnd(s)| - 1])
  {
    if s != [] && IsSpace(s[|s| - 1]) {
      var b' := TrimEndSplits(s[..|s| - 1]);
      b := b' + [s[|s| - 1]];
      assert s == s[..|s| - 1] + [s[|s| - 1]];
    } else {
      b := [];
    }
  }

  /** `Trim(s)` is an infix of `s` with only whitespace around it, and
      it has no whitespace at either end. */
  lemma TrimSplits(s: string) returns (a: string, b: string)
    ensures s == a + Trim(s) + b
    ensures IsBlank(a) && IsBlank(b)
    ensures IsTrimmed(Trim(s))
  {
    a := TrimStartSplits(s);
    b := TrimEndSplits(TrimStart(s));
  }

  lemma {:induction false} TrimStartOfBlank(a: string, t: string)
    requires IsBlank(a)
    requires t == [] || !IsSpace(t[0])
    ensures TrimStart(a + t) == t
  {
    if a != [] {
      assert (a + t)[1..] == a[1..] + t;
      TrimStartOfBlank(a[1..], t);
    } else {
      assert a + t == t;
    }
  }

  lemma {:induction false} TrimEndOfBlank(t: string, b: string)
    requires IsBlank(b)
    requires t == [] || !IsSpace(t[|t| - 1])
    ensures TrimEnd(t + b) == t
  {
    if b != [] {
      assert (t + b)[..|t + b| - 1] == t + b[..|b| - 1];
      TrimEndOfBlank(t, b[..|b| - 1]);
    } else {
      assert t + b == t;
    }
  }

  /** Trimming is characterised independently of how it is computed: when
      `s` is a blank prefix, a trimmed middle and a blank suffix, the
      middle is what `Trim` returns. */
  lemma TrimUnique(a: string, r: string, b: string)
    requires IsBlank(a) && IsBlank(b) && IsTrimmed(r)
    ensures Trim(a + r + b) == r
  {
    if r == [] {
      assert a + r + b == (a + b) + [];
      assert IsBlank(a + b);
      TrimStartOfBlank(a + b, []);
      assert TrimStart(a + r + b) == [];
    } else {
      assert a + r + b == a + (r + b);
      TrimStartOfBlank(a, r + b);
      TrimEndOfBlank(r, b);
    }
  }

  /** Trimming twice is trimming once. */
  lemma TrimIdempotent(s: string)
    ensures Trim(Trim(s)) == Trim(s)
  {
  }

  lemma HasDigitAppend(x: string, y: string)
    ensures HasDigit(x + y) <==> HasDigit(x) || HasDigit(y)
  {
    if HasDigit(x + y) {
      var k :| 0 <= k < |x + y| && IsDigit((x + y)[k]);
      if k < |x| {
        assert x[k] == (x + y)[k];
      } else {
        assert y[k - |x|] == (x + y)[k];
      }
    }
    if HasDigit(x) {
      var k :| 0 <= k < |x| && IsDigit(x[k]);
      assert (x + y)[k] == x[k];
    }
    if HasDigit(y) {
      var k :| 0 <= k < |y| && IsDigit(y[k]);
      assert (x + y)[|x| + k] == y[k];
    }
  }

  lemma BlankHasNoDigit(x: string)
    requires IsBlank(x)
    ensures !HasDigit(x)
  {
  }

  /** Digits are never whitespace, so trimming keeps every digit: `s`
      contains a digit exactly when `Trim(s)` does. */
  lemma TrimKeepsDigits(s: string)
    ensures HasDigit(s) <==> HasDigit(Trim(s))
  {
    var r := Trim(s);
    var a, b := TrimSplits(s);
    HasDigitAppend(a + r, b);
    HasDigitAppend(a, r);
    BlankHasNoDigit(a);
    BlankHasNoDigit(b);
  }

  /** A text with a digit is never blank, so it never trims to "". */
  lemma DigitNotBlank(s: string)
    requires HasDigit(s)
    ensures Trim(s) != []
  {
    TrimKeepsDigits(s);
  }
}
