/** The pieces of Python's text handling that the GraphX helpers rely on:
    `str.isspace`, `str.strip`, the comment filter `re.sub(r';.*$', '', line)`,
    the tokeniser `re.split(r'[,\s]+', line)`, `', '.join`, `str(int)`, and
    `int(token)` / `int(token, 0)` for ASCII literals. */
module PyText {
  import opened Wrappers

  /** Python's whitespace: `str.isspace()`, which is also what `\s` and
      `str.strip()` use on `str` values. */
  predicate IsSpace(c: char) {
    ('\t' <= c <= '\r') || ('\U{1C}' <= c <= ' ') || c == '\U{85}' || c == '\U{A0}'
    || c == '\U{1680}' || ('\U{2000}' <= c <= '\U{200A}') || c == '\U{2028}' || c == '\U{2029}'
    || c == '\U{202F}' || c == '\U{205F}' || c == '\U{3000}'
  }

  /** A character of the class `[,\s]`. */
  predicate IsSeparator(c: char) {
    c == ',' || IsSpace(c)
  }

  predicate NoSeparator(s: string) {
    forall k :: 0 <= k < |s| ==> !IsSeparator(s[k])
  }

  /** The number of whitespace characters at the front of `s`. */
  function LeadingSpaces(s: string): (n: nat)
    ensures n <= |s|
  {
    if s != [] && IsSpace(s[0]) then 1 + LeadingSpaces(s[1..]) else 0
  }

  /** The number of whitespace characters at the back of `s`. */
  function TrailingSpaces(s: string): (n: nat)
    ensures n <= |s|
  {
    if s != [] && IsSpace(s[|s| - 1]) then 1 + TrailingSpaces(s[..|s| - 1]) else 0
  }

  /** `s.strip()`. */
  function Strip(s: string): (r: string)
    ensures |r| <= |s|
  {
    var t := s[LeadingSpaces(s)..];
    t[..|t| - TrailingSpaces(t)]
  }

  lemma {:induction false} LeadingSpacesSpec(s: string)
    ensures var n := LeadingSpaces(s);
      (n < |s| ==> !IsSpace(s[n])) && forall k :: 0 <= k < n ==> IsSpace(s[k])
  {
    if s != [] && IsSpace(s[0]) {
      LeadingSpacesSpec(s[1..]);
    }
  }

  lemma {:induction false} TrailingSpacesSpec(s: string)
    ensures var n := TrailingSpaces(s);
      (n < |s| ==> !IsSpace(s[|s| - 1 - n])) && forall k :: |s| - n <= k < |s| ==> IsSpace(s[k])
  {
    if s != [] && IsSpace(s[|s| - 1]) {
      TrailingSpacesSpec(s[..|s| - 1]);
    }
  }

  /** `strip()` cuts only whitespace, and what it keeps neither starts nor
      ends with whitespace. */
  lemma StripSpec(s: string)
    ensures var r := Strip(s);
      && (r != [] ==> !IsSpace(r[0]) && !IsSpace(r[|r| - 1]))
      && (r == [] ==> forall k :: 0 <= k < |s| ==> IsSpace(s[k]))
      && (r != [] ==> r == s[LeadingSpaces(s)..LeadingSpaces(s) + |r|])
  {
    StripKept(s);
    StripEmpty(s);
  }

  lemma StripKept(s: string)
    ensures var r := Strip(s);
      r != [] ==> !IsSpace(r[0]) && !IsSpace(r[|r| - 1]) && r == s[LeadingSpaces(s)..LeadingSpaces(s) + |r|]
  {
    var a := LeadingSpaces(s);
    var t := s[a..];
    var b := TrailingSpaces(t);
    var r := t[..|t| - b];
    if r != [] {
      assert !IsSpace(r[0]) by {
        LeadingSpacesSpec(s);
        assert r[0] == s[a];
      }
      assert !IsSpace(r[|r| - 1]) by {
        TrailingSpacesSpec(t);
        assert r[|r| - 1] == t[|t| - 1 - b];
      }
      assert r == s[a..a + |r|];
    }
  }

  lemma StripEmpty(s: string)
    ensures Strip(s) == [] ==> forall k :: 0 <= k < |s| ==> IsSpace(s[k])
  {
    var a := LeadingSpaces(s);
    var t := s[a..];
    if Strip(s) == [] {
      assert a == |s| by {
        TrailingSpacesSpec(t);
        LeadingSpacesSpec(s);
      }
      LeadingSpacesSpec(s);
    }
  }

  /** A string whose ends are not whitespace is its own `strip()`. */
  lemma StripUnchanged(s: string)
    requires s == [] || (!IsSpace(s[0]) && !IsSpace(s[|s| - 1]))
    ensures Strip(s) == s
  {
  }

  /** A line read with its `\n` strips to its text when the text neither
      starts nor ends with whitespace. */
  lemma StripLineEnd(s: string)
    requires s == [] || (!IsSpace(s[0]) && !IsSpace(s[|s| - 1]))
    ensures Strip(s + "\n") == s
  {
    var t := s + "\n";
    if s == [] {
      assert LeadingSpaces(t) == 1 + LeadingSpaces(t[1..]);
    } else {
      assert LeadingSpaces(t) == 0;
      assert t[..|t| - 1] == s;
      assert TrailingSpaces(t) == 1 + TrailingSpaces(s);
    }
  }

  /** The match of `;.*$` can start at `p`: `.` does not cross a newline and
      `$` matches at the end or just before a final newline. */
  predicate CommentStartsAt(s: string, p: nat) {
    p < |s| && s[p] == ';' && forall k :: p < k < |s| - 1 ==> s[k] != '\n'
  }

  function FirstComment(s: string, from: nat): (r: Option<nat>)
    decreases |s| - from
    ensures r.Some? ==> from <= r.value < |s| && CommentStartsAt(s, r.value)
                        && forall q :: from <= q < r.value ==> !CommentStartsAt(s, q)
    ensures r.None? ==> forall q :: from <= q < |s| ==> !CommentStartsAt(s, q)
  {
    if from >= |s| then None
    else if CommentStartsAt(s, from) then Some(from)
    else FirstComment(s, from + 1)
  }

  /** `re.sub(r';.*$', '', s)`: the leftmost match is removed, keeping a
      final newline; a line without `;` is returned unchanged. */
  function StripComment(s: string): (r: string)
    ensures (forall k :: 0 <= k < |s| ==> s[k] != ';') ==> r == s
    ensures FirstComment(s, 0).Some? ==>
              r == s[..FirstComment(s, 0).value] + (if s[|s| - 1] == '\n' then "\n" else "")
  {
    match FirstComment(s, 0)
    case None => s
    case Some(p) => s[..p] + (if s[|s| - 1] == '\n' then "\n" else "")
  }

  /** Index of the first separator at or after `from`, or `|s|`. */
  function FirstSeparator(s: string, from: nat): (i: nat)
    requires from <= |s|
    decreases |s| - from
    ensures from <= i <= |s| && (i < |s| ==> IsSeparator(s[i]))
    ensures forall k :: from <= k < i ==> !IsSeparator(s[k])
  {
    if from == |s| || IsSeparator(s[from]) then from else FirstSeparator(s, from + 1)
  }

  /** End of the run of separators that starts at `from`. */
  function RunEnd(s: string, from: nat): (j: nat)
    requires from <= |s|
    decreases |s| - from
    ensures from <= j <= |s| && (j < |s| ==> !IsSeparator(s[j]))
    ensures forall k :: from <= k < j ==> IsSeparator(s[k])
  {
    if from == |s| || !IsSeparator(s[from]) then from else RunEnd(s, from + 1)
  }

  /** `re.split(r'[,\s]+', s)`: the pieces between maximal runs of
      separators, including an empty first or last piece when `s` starts or
      ends with a separator. */
  function Split(s: string): (r: seq<string>)
    decreases |s|
    ensures |r| >= 1
    ensures forall f :: f in r ==> NoSeparator(f)
    ensures NoSeparator(s) ==> r == [s]
  {
    var i := FirstSeparator(s, 0);
    if i == |s| then [s]
    else
      var j := RunEnd(s, i);
      [s[..i]] + Split(s[j..])
  }

  /** `sep.join(parts)`. */
  function Join(parts: seq<string>, sep: string): (r: string)
    ensures |parts| == 1 ==> r == parts[0]
  {
    if |parts| == 0 then ""
    else if |parts| == 1 then parts[0]
    else parts[0] + sep + Join(parts[1..], sep)
  }

  lemma {:induction false} JoinStarts(parts: seq<string>, sep: string)
    requires |parts| >= 1
    ensures |Join(parts, sep)| >= |parts[0]| && Join(parts, sep)[..|parts[0]|] == parts[0]
  {
    if |parts| > 1 {
      JoinStarts(parts[1..], sep);
    }
  }

  /** Splitting a `', '`-joined list of non-empty separator-free pieces gives
      the pieces back. */
  lemma {:induction false} SplitJoin(parts: seq<string>)
    requires |parts| >= 1
    requires forall k :: 0 <= k < |parts| ==> parts[k] != [] && NoSeparator(parts[k])
    ensures Split(Join(parts, ", ")) == parts
  {
    if |parts| > 1 {
      var p0, rest := parts[0], Join(parts[1..], ", ");
      var s := Join(parts, ", ");
      assert s == p0 + ", " + rest;
      JoinStarts(parts[1..], ", ");
      assert rest[0] == parts[1][0];
      assert FirstSeparator(s, 0) == |p0| by {
        assert forall k :: 0 <= k < |p0| ==> s[k] == p0[k];
        assert s[|p0|] == ',';
      }
      assert RunEnd(s, |p0|) == |p0| + 2 by {
        assert s[|p0| + 2] == rest[0];
        assert RunEnd(s, |p0| + 2) == |p0| + 2;
      }
      assert s[..|p0|] == p0;
      assert s[|p0| + 2..] == rest;
      SplitJoin(parts[1..]);
    }
  }

  /** The value of a digit character in bases up to 36; 36 for anything else. */
  function DigitValue(c: char): nat {
    if '0' <= c <= '9' then c as int - '0' as int
    else if 'a' <= c <= 'z' then c as int - 'a' as int + 10
    else if 'A' <= c <= 'Z' then c as int - 'A' as int + 10
    else 36
  }

  /** Digits of `base`, with single underscores allowed between digits. */
  predicate DigitGroups(s: string, base: nat) {
    && |s| > 0 && s[0] != '_' && s[|s| - 1] != '_'
    && (forall k :: 0 <= k < |s| ==> s[k] == '_' || DigitValue(s[k]) < base)
    && (forall k :: 0 <= k < |s| - 1 ==> s[k] != '_' || s[k + 1] != '_')
  }

  /** The bases the assembler's `int` calls read: 2, 8 and 16 behind a
      `0b`, `0o` or `0x` prefix, otherwise 10. */
  predicate LiteralBase(base: nat) {
    base == 2 || base == 8 || base == 10 || base == 16
  }

  /** `v * base`, one constant factor per base. */
  function Scale(v: nat, base: nat): (r: nat)
    requires LiteralBase(base)
  {
    if base == 2 then 2 * v else if base == 8 then 8 * v else if base == 16 then 16 * v else 10 * v
  }

  /** The value of a digit string, underscores skipped. */
  function DigitsValue(s: string, base: nat): nat
    requires LiteralBase(base)
    decreases |s|
  {
    if s == [] then 0
    else if s[|s| - 1] == '_' then DigitsValue(s[..|s| - 1], base)
    else Scale(DigitsValue(s[..|s| - 1], base), base) + DigitValue(s[|s| - 1])
  }

  /** An unsigned literal as `int(s, 0)` reads it: `0x`, `0o` or `0b`
      prefixed, or decimal without leading zeros (zero itself may repeat). */
  function UnsignedBase0(s: string): Option<nat> {
    if |s| >= 2 && s[0] == '0' && (s[1] == 'x' || s[1] == 'X' || s[1] == 'o' || s[1] == 'O' || s[1] == 'b' || s[1] == 'B') then
      var base := if s[1] == 'x' || s[1] == 'X' then 16 else if s[1] == 'o' || s[1] == 'O' then 8 else 2;
      var digits := if |s| > 2 && s[2] == '_' then s[3..] else s[2..];
      if DigitGroups(digits, base) then Some(DigitsValue(digits, base)) else None
    else if DigitGroups(s, 10) && (s[0] != '0' || forall k :: 0 <= k < |s| ==> s[k] == '0' || s[k] == '_') then
      Some(DigitsValue(s, 10))
    else None
  }

  /** An unsigned literal as `int(s)` reads it: decimal, leading zeros allowed. */
  function UnsignedBase10(s: string): Option<nat> {
    if DigitGroups(s, 10) then Some(DigitsValue(s, 10)) else None
  }

  function ApplySign(s: string, base0: bool): Option<int> {
    var negative := |s| > 0 && s[0] == '-';
    var body := if |s| > 0 && (s[0] == '+' || s[0] == '-') then s[1..] else s;
    match (if base0 then UnsignedBase0(body) else UnsignedBase10(body))
    case None => None
    case Some(n) =>
      var v: int := if negative then -(n as int) else n;
      Some(v)
  }

  /** `int(s, 0)`; `None` where Python raises `ValueError`. */
  function ParseIntBase0(s: string): Option<int> {
    ApplySign(Strip(s), true)
  }

  /** `int(s)`; `None` where Python raises `ValueError`. */
  function ParseIntBase10(s: string): Option<int> {
    ApplySign(Strip(s), false)
  }

  function DigitChar(d: nat): (c: char)
    requires d < 10
    ensures '0' <= c <= '9' && DigitValue(c) == d
  {
    ['0', '1', '2', '3', '4', '5', '6', '7', '8', '9'][d]
  }

  function NatToString(n: nat): (r: string)
    decreases n
    ensures |r| >= 1
    ensures forall k :: 0 <= k < |r| ==> '0' <= r[k] <= '9'
  {
    if n < 10 then [DigitChar(n)] else NatToString(n / 10) + [DigitChar(n % 10)]
  }

  /** `str(x)` for an integer `x`. */
  function IntToString(x: int): (r: string) {
    if x < 0 then "-" + NatToString(-x) else NatToString(x)
  }

  lemma {:induction false} NatToStringShape(n: nat)
    ensures DigitGroups(NatToString(n), 10) && DigitsValue(NatToString(n), 10) == n
    ensures NatToString(n)[0] == '0' <==> n == 0
    decreases n
  {
    if n >= 10 {
      var s := NatToString(n / 10);
      NatToStringShape(n / 10);
      var t := s + [DigitChar(n % 10)];
      assert t[..|t| - 1] == s;
      assert t[0] == s[0];
    }
  }

  /** `str(x)` is a single token that never starts a directive or comment. */
  lemma IntToStringToken(x: int)
    ensures IntToString(x) != [] && NoSeparator(IntToString(x))
    ensures forall k :: 0 <= k < |IntToString(x)| ==> IntToString(x)[k] != ';'
    ensures IntToString(x)[0] != '.'
  {
  }

  lemma NatRoundTrip(n: nat)
    ensures UnsignedBase0(NatToString(n)) == Some(n)
  {
    var body := NatToString(n);
    NatToStringShape(n);
    if body[0] == '0' {
      assert n == 0 && body == "0";
    }
  }

  /** `int(str(x), 0) == x`: what `__str__` writes, the data sections read back. */
  lemma IntRoundTrip(x: int)
    ensures ParseIntBase0(IntToString(x)) == Some(x)
  {
    var s := IntToString(x);
    var n: nat := if x < 0 then -x else x;
    var body := NatToString(n);
    NatRoundTrip(n);
    assert !IsSpace(s[0]) && !IsSpace(s[|s| - 1]);
    StripUnchanged(s);
    if x < 0 {
      assert s[0] == '-' && s[1..] == body;
    } else {
      assert s == body && s[0] != '-' && s[0] != '+';
    }
  }
}
