/** The Python string primitives the store's helpers are built from:
    `str.isspace`, `strip`, `replace(c, '')`, `s[:n]`, `split(sep)[0]`,
    `lower` (ASCII letters), and decimal rendering and parsing of integers. */
module Text {
  import opened Wrappers

  /** Python's `str.isspace` (also what `\s` matches in a `str` pattern). */
  predicate IsSpace(c: char) {
    if c <= ' ' then c == ' ' || '\t' <= c <= '\r' || '\U{001C}' <= c <= '\U{001F}'
    else if c < '\U{2000}' then c == '\U{0085}' || c == '\U{00A0}' || c == '\U{1680}'
    else c <= '\U{200A}' || c == '\U{2028}' || c == '\U{2029}' || c == '\U{202F}' || c == '\U{205F}' || c == '\U{3000}'
  }

  predicate IsDigit(c: char) { '0' <= c <= '9' }

  predicate IsAsciiUpper(c: char) { 'A' <= c <= 'Z' }

  predicate IsAsciiLetter(c: char) { IsAsciiUpper(c) || 'a' <= c <= 'z' }

  predicate AllDigits(s: string) {
    forall i :: 0 <= i < |s| ==> IsDigit(s[i])
  }

  /** Where the whitespace run starting at `i` ends. */
  function SpaceRunEnd(s: string, i: nat): (n: nat)
    requires i <= |s|
    ensures i <= n <= |s|
    ensures forall k :: i <= k < n ==> IsSpace(s[k])
    ensures n == |s| || !IsSpace(s[n])
    decreases |s| - i
  {
    if i < |s| && IsSpace(s[i]) then SpaceRunEnd(s, i + 1) else i
  }

  /** Where the whitespace run ending just before `j` starts. */
  function SpaceRunStart(s: string, j: nat): (n: nat)
    requires j <= |s|
    ensures n <= j
    ensures forall k :: n <= k < j ==> IsSpace(s[k])
    ensures n == 0 || !IsSpace(s[n - 1])
    decreases j
  {
    if j > 0 && IsSpace(s[j - 1]) then SpaceRunStart(s, j - 1) else j
  }

  /** Where `s.strip()` starts: the first non-whitespace position, or the
      end when there is none. */
  function StripStart(s: string): (i: nat)
    ensures i <= |s| && forall k :: 0 <= k < i ==> IsSpace(s[k])
  {
    SpaceRunEnd(s, 0)
  }

  /** `s.strip()`: the longest middle piece with no whitespace at either end;
      everything cut away is whitespace. */
  function Strip(s: string): (r: string)
    ensures r == [] || (!IsSpace(r[0]) && !IsSpace(r[|r| - 1]))
    ensures var i := StripStart(s);
              && 0 <= i <= |s| - |r| && r == s[i..i + |r|]
              && (forall k :: 0 <= k < i ==> IsSpace(s[k]))
              && (forall k :: i + |r| <= k < |s| ==> IsSpace(s[k]))
  {
    var i := StripStart(s);
    var j := SpaceRunStart(s, |s|);
    if j <= i then [] else s[i..j]
  }

  /** A string with no whitespace at either end is its own strip. */
  lemma StripFixed(s: string)
    requires s == [] || (!IsSpace(s[0]) && !IsSpace(s[|s| - 1]))
    ensures Strip(s) == s
  {
  }

  /** `s.replace(c, '')` */
  function RemoveChar(s: string, c: char): (r: string)
    ensures c !in r
    ensures |r| <= |s|
    ensures forall x :: x != c ==> multiset(r)[x] == multiset(s)[x]
    ensures c !in s ==> r == s
    ensures |s| == 1 ==> r == if s[0] == c then [] else s
  {
    if |s| == 0 then []
    else if s[0] == c then
      assert s == [s[0]] + s[1..];
      RemoveChar(s[1..], c)
    else
      assert s == [s[0]] + s[1..];
      [s[0]] + RemoveChar(s[1..], c)
  }

  /** Removal works piece by piece, so every other character keeps its place
      relative to the rest. */
  lemma {:induction false} RemoveCharAppend(a: string, b: string, c: char)
    ensures RemoveChar(a + b, c) == RemoveChar(a, c) + RemoveChar(b, c)
    decreases |a|
  {
    if |a| > 0 {
      assert (a + b)[1..] == a[1..] + b;
      RemoveCharAppend(a[1..], b, c);
    } else {
      assert a + b == b;
    }
  }

  /** Python's prefix slice `s[:n]`, where a negative `n` counts from the end. */
  function Take(s: string, n: int): (r: string)
    ensures |r| <= |s| && r == s[..|r|]
    ensures n >= 0 ==> |r| == if n <= |s| then n else |s|
    ensures n < 0 ==> |r| == if |s| + n >= 0 then |s| + n else 0
  {
    if n >= 0 then (if n <= |s| then s[..n] else s)
    else (if |s| + n >= 0 then s[..|s| + n] else [])
  }

  /** `s.split(sep)[0]`: everything before the first `sep`. */
  function FirstField(s: string, sep: char): (r: string)
    ensures sep !in r
    ensures |r| <= |s| && r == s[..|r|]
    ensures |r| < |s| ==> s[|r|] == sep
  {
    if |s| == 0 then []
    else if s[0] == sep then []
    else [s[0]] + FirstField(s[1..], sep)
  }

  function LowerChar(c: char): char {
    if IsAsciiUpper(c) then (c as int + 32) as char else c
  }

  /** `s.lower()` on ASCII letters; every other character is kept. */
  function Lower(s: string): (r: string)
    ensures |r| == |s|
    ensures forall i :: 0 <= i < |s| ==> r[i] == LowerChar(s[i])
  {
    seq(|s|, i requires 0 <= i < |s| => LowerChar(s[i]))
  }

  function DigitChar(d: nat): (c: char)
    requires d < 10
    ensures IsDigit(c)
  {
    ('0' as int + d) as char
  }

  function DigitValue(c: char): (d: nat)
    requires IsDigit(c)
    ensures d < 10 && DigitChar(d) == c
  {
    (c as int - '0' as int) as nat
  }

  /** `str(n)` for a non-negative integer: decimal digits without leading zeros. */
  function NatToString(n: nat): (r: string)
    ensures |r| >= 1 && AllDigits(r)
    ensures n > 0 ==> r[0] != '0'
    decreases n
  {
    if n < 10 then [DigitChar(n)] else NatToString(n / 10) + [DigitChar(n % 10)]
  }

  /** The number a run of decimal digits denotes. */
  function DigitsValue(s: string): nat
    requires AllDigits(s)
  {
    if |s| == 0 then 0 else DigitsValue(s[..|s| - 1]) * 10 + DigitValue(s[|s| - 1])
  }

  /** Reading back what `NatToString` wrote gives the number again. */
  lemma {:induction false} DigitsValueOfNatToString(n: nat)
    ensures DigitsValue(NatToString(n)) == n
    decreases n
  {
    if n >= 10 {
      var r := NatToString(n);
      DigitsValueOfNatToString(n / 10);
      assert r[..|r| - 1] == NatToString(n / 10);
    }
  }

  /** Distinct numbers render as distinct strings. */
  lemma NatToStringInjective(m: nat, n: nat)
    requires NatToString(m) == NatToString(n)
    ensures m == n
  {
    DigitsValueOfNatToString(m);
    DigitsValueOfNatToString(n);
  }

  // ---------------- Python's int() on a string ----------------

  /** Decimal digits with single underscores between them, as `int()` reads
      them (ASCII digits only). */
  predicate DigitRun(s: string) {
    && |s| > 0 && IsDigit(s[0]) && IsDigit(s[|s| - 1])
    && (forall i :: 0 <= i < |s| ==> IsDigit(s[i]) || s[i] == '_')
    && (forall i :: 0 <= i < |s| - 1 ==> !(s[i] == '_' && s[i + 1] == '_'))
  }

  lemma DigitRunWithoutUnderscores(s: string)
    requires DigitRun(s)
    ensures AllDigits(RemoveChar(s, '_'))
  {
    var r := RemoveChar(s, '_');
    forall i | 0 <= i < |r| ensures IsDigit(r[i]) {
      var x := r[i];
      assert x in multiset(r);
      assert x in multiset(s);
      var j :| 0 <= j < |s| && s[j] == x;
    }
  }

  /** The value of a digit run, if `s` is one. */
  function RunValue(s: string): (r: Option<nat>)
    ensures r.Some? <==> DigitRun(s)
  {
    if DigitRun(s) then DigitRunWithoutUnderscores(s); Some(DigitsValue(RemoveChar(s, '_'))) else None
  }

  /** `int()` on an already stripped string: one optional sign, then a digit run. */
  function ParseSigned(t: string): (r: Option<int>)
    ensures r.Some? ==> |t| > 0
    ensures r.Some? && IsDigit(t[0]) ==> r.value >= 0
    ensures r.Some? && t[0] == '-' ==> r.value <= 0
  {
    if |t| == 0 then None
    else if t[0] == '+' || t[0] == '-' then
      match RunValue(t[1..])
      case None => None
      case Some(n) => Some(if t[0] == '-' then -(n as int) else n as int)
    else
      match RunValue(t)
      case None => None
      case Some(n) => Some(n)
  }

  /** `int(s)` for a string: surrounding whitespace is ignored, one optional
      sign, then a digit run; `None` where `int()` raises ValueError. */
  function ParseInt(s: string): (r: Option<int>)
    ensures r.Some? ==> |Strip(s)| > 0
    ensures r.Some? && IsDigit(Strip(s)[0]) ==> r.value >= 0
    ensures r.Some? && Strip(s)[0] == '-' ==> r.value <= 0
  {
    ParseSigned(Strip(s))
  }

  /** A non-empty run of plain digits is its own strip and its own digit run. */
  lemma DigitsAreRun(d: string)
    requires |d| > 0 && AllDigits(d)
    ensures Strip(d) == d && RunValue(d) == Some(DigitsValue(d))
  {
    assert IsDigit(d[0]) && IsDigit(d[|d| - 1]);
    StripFixed(d);
    assert '_' !in d by {
      forall i | 0 <= i < |d| ensures d[i] != '_' {
        assert IsDigit(d[i]);
      }
    }
  }

  /** A non-empty run of plain digits parses to its value. */
  lemma ParseIntOfDigits(d: string)
    requires |d| > 0 && AllDigits(d)
    ensures ParseInt(d) == Some(DigitsValue(d) as int)
  {
    DigitsAreRun(d);
  }

  /** `int(str(n)) == n`: reading back a rendered number gives the number. */
  lemma ParseIntOfNatToString(n: nat)
    ensures ParseInt(NatToString(n)) == Some(n as int)
  {
    DigitsValueOfNatToString(n);
    ParseIntOfDigits(NatToString(n));
  }
}
