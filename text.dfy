/** The parts of Python's `str` behaviour the scraper and the comparison
    script depend on: whitespace, `strip()`, `int()`, `split()`, substring
    tests, ASCII case mapping and the decimal form of a non-negative int. */
module Text {
  import opened Wrappers

  /** Python's `str.isspace()`: the characters `str.strip()`, `int()` and the
      regular-expression class `\s` treat as whitespace. */
  predicate IsSpace(c: char) {
    || ('\U{0009}' <= c <= '\U{000D}')
    || ('\U{001C}' <= c <= '\U{001F}')
    || c == ' ' || c == '\U{0085}' || c == '\U{00A0}' || c == '\U{1680}'
    || ('\U{2000}' <= c <= '\U{200A}')
    || c == '\U{2028}' || c == '\U{2029}' || c == '\U{202F}' || c == '\U{205F}' || c == '\U{3000}'
  }

  predicate IsDigit(c: char) { '0' <= c <= '9' }
  predicate IsAsciiUpper(c: char) { 'A' <= c <= 'Z' }
  predicate IsAsciiLower(c: char) { 'a' <= c <= 'z' }

  function LowerChar(c: char): char {
    if IsAsciiUpper(c) then (c as int + 32) as char else c
  }

  function UpperChar(c: char): char {
    if IsAsciiLower(c) then (c as int - 32) as char else c
  }

  /** `str.lower()` restricted to ASCII letters: only the case of letters
      changes, and no capital is left. */
  function Lower(s: string): (r: string)
    ensures |r| == |s|
    ensures forall i :: 0 <= i < |s| ==> !IsAsciiUpper(r[i]) && UpperChar(r[i]) == UpperChar(s[i])
  {
    seq(|s|, i requires 0 <= i < |s| => LowerChar(s[i]))
  }

  /** `str.upper()` restricted to ASCII letters: only the case of letters
      changes, and no lower-case letter is left. */
  function Upper(s: string): (r: string)
    ensures |r| == |s|
    ensures forall i :: 0 <= i < |s| ==> !IsAsciiLower(r[i]) && LowerChar(r[i]) == LowerChar(s[i])
  {
    seq(|s|, i requires 0 <= i < |s| => UpperChar(s[i]))
  }

  /** Python's `sub in s` on strings. */
  predicate Contains(s: string, sub: string)
    decreases |s|
  {
    |sub| <= |s| && (s[..|sub|] == sub || Contains(s[1..], sub))
  }

  function StripLeft(s: string): (r: string)
    ensures |r| <= |s|
    ensures r != [] ==> !IsSpace(r[0])
    ensures r == [] <==> forall i :: 0 <= i < |s| ==> IsSpace(s[i])
    decreases |s|
  {
    if |s| > 0 && IsSpace(s[0]) then StripLeft(s[1..]) else s
  }

  function StripRight(s: string): (r: string)
    ensures |r| <= |s|
    ensures r != [] ==> r[0] == s[0]
    ensures r != [] ==> !IsSpace(r[|r| - 1])
    ensures r == [] <==> forall i :: 0 <= i < |s| ==> IsSpace(s[i])
    decreases |s|
  {
    if |s| > 0 && IsSpace(s[|s| - 1]) then StripRight(s[..|s| - 1]) else s
  }

  /** `str.strip()` with no argument: a piece of `s` that neither starts
      nor ends with whitespace, empty exactly when `s` is all whitespace. */
  function Strip(s: string): (r: string)
    ensures |r| <= |s|
    ensures r != [] ==> !IsSpace(r[0]) && !IsSpace(r[|r| - 1])
    ensures r == [] <==> forall i :: 0 <= i < |s| ==> IsSpace(s[i])
  {
    StripRight(StripLeft(s))
  }

  lemma StripUnspaced(s: string)
    requires s != [] && !IsSpace(s[0]) && !IsSpace(s[|s| - 1])
    ensures Strip(s) == s
  {
  }

  predicate AllDigits(s: string) {
    forall i :: 0 <= i < |s| ==> IsDigit(s[i])
  }

  function DigitsValue(s: string): nat
    requires AllDigits(s)
  {
    if s == [] then 0 else 10 * DigitsValue(s[..|s| - 1]) + (s[|s| - 1] as int - '0' as int)
  }

  /** The text `int()` accepts once stripped: digits, with one optional
      sign in front. */
  predicate IsIntText(t: string) {
    || (|t| > 0 && AllDigits(t))
    || (|t| > 1 && (t[0] == '+' || t[0] == '-') && AllDigits(t[1..]))
  }

  /** The value of an integer text: the decimal value of its digits,
      negated after a `-`. */
  function SignedValue(t: string): int
    requires IsIntText(t)
  {
    if t[0] == '-' then -(DigitsValue(t[1..]) as int)
    else if t[0] == '+' then DigitsValue(t[1..])
    else DigitsValue(t)
  }

  /** Python's `int(s)` for a base-10 string: surrounding whitespace is
      ignored, one optional sign, then at least one digit; anything else is
      a `ValueError`, here `None`. */
  function ParseInt(s: string): (r: Option<int>)
    ensures r.Some? <==> IsIntText(Strip(s))
    ensures r.Some? && r.value < 0 ==> Strip(s)[0] == '-'
    ensures r.Some? ==> r.value == SignedValue(Strip(s))
  {
    var t := Strip(s);
    if |t| > 0 && (t[0] == '+' || t[0] == '-') then
      var d := t[1..];
      if |d| > 0 && AllDigits(d) then
        var v: int := DigitsValue(d);
        Some(if t[0] == '-' then -v else v)
      else None
    else if |t| > 0 && AllDigits(t) then Some(DigitsValue(t))
    else None
  }

  function DigitChar(d: nat): char
    requires d < 10
  {
    ('0' as int + d) as char
  }

  /** The decimal text of `n`, as Python's `str(n)` and f-strings write it. */
  function ShowNat(n: nat): string
    decreases n
  {
    if n < 10 then [DigitChar(n)] else ShowNat(n / 10) + [DigitChar(n % 10)]
  }

  lemma {:induction false} ShowNatDigits(n: nat)
    ensures |ShowNat(n)| > 0 && AllDigits(ShowNat(n)) && DigitsValue(ShowNat(n)) == n
  {
    if n >= 10 {
      ShowNatDigits(n / 10);
      var s := ShowNat(n);
      assert s[..|s| - 1] == ShowNat(n / 10);
    }
  }

  /** `int(str(n)) == n`: the decimal text of a count reads back as that count. */
  lemma ParseShowNat(n: nat)
    ensures ParseInt(ShowNat(n)) == Some(n)
  {
    ShowNatDigits(n);
    ParseDigits(ShowNat(n));
  }

  /** A non-empty run of digits reads as its decimal value. */
  lemma ParseDigits(s: string)
    requires |s| > 0 && AllDigits(s)
    ensures ParseInt(s) == Some(DigitsValue(s))
  {
    assert IsDigit(s[0]) && IsDigit(s[|s| - 1]);
    StripUnspaced(s);
  }

  /** An occurrence of `sub` at position `i` of `s` is found by `Contains`. */
  lemma {:induction false} ContainsAt(s: string, sub: string, i: nat)
    requires i + |sub| <= |s| && s[i..i + |sub|] == sub
    ensures Contains(s, sub)
    decreases i
  {
    if i > 0 {
      assert s[1..][i - 1..i - 1 + |sub|] == sub;
      ContainsAt(s[1..], sub, i - 1);
    }
  }

  /** Python's `s.split(sep)` for a non-empty separator: cut at each
      occurrence of `sep`, scanning from the left and resuming after it. */
  function Split(s: string, sep: string): (parts: seq<string>)
    requires |sep| > 0
    ensures |parts| >= 1
    ensures Join(parts, sep) == s
    ensures forall i :: 0 <= i < |parts| ==> !Contains(parts[i], sep)
    decreases |s|
  {
    if |s| < |sep| then [s]
    else if s[..|sep|] == sep then
      var rest := Split(s[|sep|..], sep);
      assert ([""] + rest)[1..] == rest;
      assert s == sep + s[|sep|..];
      [""] + rest
    else
      var rest := Split(s[1..], sep);
      JoinConsHead(s[0], rest, sep);
      assert s == [s[0]] + s[1..];
      JoinHeadPrefix(rest, sep);
      HeadPieceClean(s, rest[0], sep);
      var parts := [[s[0]] + rest[0]] + rest[1..];
      assert forall i :: 1 <= i < |parts| ==> parts[i] == rest[i];
      parts
  }

  /** The first piece of a join is a prefix of it. */
  lemma JoinHeadPrefix(parts: seq<string>, sep: string)
    requires |parts| >= 1
    ensures parts[0] <= Join(parts, sep)
  {
  }

  /** A piece that starts a text not opening with `sep`, one character
      longer than a piece free of `sep`, is itself free of `sep`. */
  lemma HeadPieceClean(s: string, p: string, sep: string)
    requires |s| >= |sep| > 0 && s[..|sep|] != sep
    requires p <= s[1..] && !Contains(p, sep)
    ensures !Contains([s[0]] + p, sep)
  {
    var q := [s[0]] + p;
    assert q[1..] == p;
    if |sep| <= |q| {
      assert q[..|sep|] == s[..|sep|];
    }
  }

  /** Python's `sep.join(parts)`. */
  function Join(parts: seq<string>, sep: string): string
    decreases |parts|
  {
    if parts == [] then ""
    else if |parts| == 1 then parts[0]
    else parts[0] + sep + Join(parts[1..], sep)
  }

  /** The last piece of a join follows the last separator. */
  lemma {:induction false} JoinLast(parts: seq<string>, sep: string)
    requires |parts| >= 2
    ensures Join(parts, sep) == Join(parts[..|parts| - 1], sep) + sep + parts[|parts| - 1]
    decreases |parts|
  {
    if |parts| > 2 {
      JoinLast(parts[1..], sep);
      assert parts[1..][..|parts| - 2] == parts[..|parts| - 1][1..];
    }
  }

  /** The last piece of `s.split(sep)` is what follows the last cut: the
      whole of `s`, or the text right after an occurrence of `sep`. */
  lemma SplitLastSuffix(s: string, sep: string)
    requires |sep| > 0
    ensures var parts := Split(s, sep); var last := parts[|parts| - 1];
            && |last| <= |s| && s[|s| - |last|..] == last
            && (|last| == |s| || (|last| + |sep| <= |s| && s[|s| - |last| - |sep|..|s| - |last|] == sep))
  {
    var parts := Split(s, sep);
    if |parts| >= 2 {
      JoinLast(parts, sep);
      var init := Join(parts[..|parts| - 1], sep);
      assert s == init + sep + parts[|parts| - 1];
    }
  }

  lemma JoinConsHead(c: char, parts: seq<string>, sep: string)
    requires |parts| >= 1
    ensures Join([[c] + parts[0]] + parts[1..], sep) == [c] + Join(parts, sep)
  {
    var q := [[c] + parts[0]] + parts[1..];
    assert q[1..] == parts[1..];
  }

  /** A string without the separator's first character is not cut at all. */
  lemma {:induction false} SplitAbsent(s: string, sep: string)
    requires |sep| > 0
    requires forall i :: 0 <= i < |s| ==> s[i] != sep[0]
    ensures Split(s, sep) == [s]
    decreases |s|
  {
    if |s| >= |sep| {
      assert s[..|sep|][0] == s[0];
      SplitAbsent(s[1..], sep);
      assert [s[0]] + s[1..] == s;
    }
  }

  /** A string that starts with the separator is cut right after it. */
  lemma SplitLeading(sep: string, rest: string)
    requires |sep| > 0
    ensures Split(sep + rest, sep) == [""] + Split(rest, sep)
  {
    var s := sep + rest;
    assert s[..|sep|] == sep && s[|sep|..] == rest;
  }

  /** With a one-character separator, a piece free of it is the first piece. */
  lemma {:induction false} SplitCharHead(a: string, sep: string, rest: string)
    requires |sep| == 1
    requires forall i :: 0 <= i < |a| ==> a[i] != sep[0]
    ensures Split(a + sep + rest, sep) == [a] + Split(rest, sep)
    decreases |a|
  {
    if a == [] {
      assert a + sep + rest == sep + rest;
      SplitLeading(sep, rest);
    } else {
      var s := a + sep + rest;
      assert s[..1] != sep by { assert s[0] == a[0]; }
      assert s[1..] == a[1..] + sep + rest;
      SplitCharHead(a[1..], sep, rest);
      assert [a[0]] + a[1..] == a;
    }
  }
}
