/** The input helpers of the store: `sanitize_string`, `validate_id`,
    `validate_phone` and `validate_email`. A helper that raises `ValueError`
    gives `None` here. */
module Validators {
  import opened Wrappers
  import opened Text
  import opened Json

  /** What `sanitize_string` receives: a string, or any other value, given by
      its truthiness and its `str()` text. */
  datatype Input = Str(s: string) | NonStr(truthy: bool, text: string)

  /** A string without its NUL characters and then without its
      surrounding whitespace. */
  function Clean(s: string): (c: string)
    ensures '\0' !in c && |c| <= |s|
    ensures c == [] || (!IsSpace(c[0]) && !IsSpace(c[|c| - 1]))
    ensures var d := RemoveChar(s, '\0');
      var i := StripStart(d);
      && i + |c| <= |d| && c == d[i..i + |c|]
      && (forall k :: 0 <= k < i ==> IsSpace(d[k]))
      && (forall k :: i + |c| <= k < |d| ==> IsSpace(d[k]))
  {
    NoNulAfterStrip(s);
    Strip(RemoveChar(s, '\0'))
  }

  /** `sanitize_string`: a string is cleaned and then cut to `maxLength`
      (Python's prefix slice, so a negative length drops characters from
      the end). Any other value becomes its text, cut the same way, or the
      empty string when it is falsy. Cutting comes last, so it can leave
      whitespace at the end. */
  function Sanitize(v: Input, maxLength: int): (r: string)
    ensures maxLength >= 0 ==> |r| <= maxLength
    ensures v.Str? ==>
      var clean := Clean(v.s);
      && '\0' !in r
      && |r| <= |clean| && r == clean[..|r|]
      && (r == [] || !IsSpace(r[0]))
      && (|clean| <= maxLength ==> r == clean && (r == [] || !IsSpace(r[|r| - 1])))
    ensures v.Str? && maxLength >= 0 ==> |r| == if |Clean(v.s)| <= maxLength then |Clean(v.s)| else maxLength
    ensures v.Str? && maxLength < 0 ==> |r| == if |Clean(v.s)| + maxLength >= 0 then |Clean(v.s)| + maxLength else 0
    ensures v.NonStr? ==> r == if v.truthy then Take(v.text, maxLength) else []
  {
    match v
    case Str(s) =>
      var clean := Clean(s);
      var r := Take(clean, maxLength);
      CutOfClean(clean, maxLength);
      r
    case NonStr(truthy, text) => if truthy then Take(text, maxLength) else []
  }

  lemma NoNulAfterStrip(s: string)
    ensures '\0' !in Strip(RemoveChar(s, '\0'))
  {
    var d := RemoveChar(s, '\0');
    var c := Strip(d);
    var i := StripStart(d);
    SliceKeepsOut(d, i, i + |c|, '\0');
  }

  lemma SliceKeepsOut(d: string, i: int, j: int, x: char)
    requires x !in d && 0 <= i <= j <= |d|
    ensures x !in d[i..j]
  {
    forall k | 0 <= k < j - i ensures d[i..j][k] != x {
      assert d[i..j][k] == d[i + k];
    }
  }

  /** Cutting a clean string keeps it free of NUL and of leading
      whitespace, and keeps all of it when it is short enough. */
  lemma CutOfClean(clean: string, maxLength: int)
    requires '\0' !in clean && (clean == [] || (!IsSpace(clean[0]) && !IsSpace(clean[|clean| - 1])))
    ensures var r := Take(clean, maxLength);
      && '\0' !in r
      && (maxLength >= 0 ==> |r| <= maxLength)
      && |r| <= |clean| && r == clean[..|r|]
      && (r == [] || !IsSpace(r[0]))
      && (|clean| <= maxLength ==> r == clean && (r == [] || !IsSpace(r[|r| - 1])))
  {
    var r := Take(clean, maxLength);
    SliceKeepsOut(clean, 0, |r|, '\0');
    assert clean[0..|r|] == r;
  }

  /** A string that is already clean and short enough comes back unchanged. */
  lemma SanitizeFixedPoint(s: string, maxLength: int)
    requires '\0' !in s && (s == [] || (!IsSpace(s[0]) && !IsSpace(s[|s| - 1])))
    requires |s| <= maxLength
    ensures Sanitize(Str(s), maxLength) == s
  {
    StripFixed(s);
  }

  /** Sanitizing does not always give a fixed point: a cut can end on a space
      that a second pass strips. */
  lemma SanitizeCutKeepsTrailingSpace(a: char, b: char)
    requires a != '\0' && b != '\0' && !IsSpace(a) && !IsSpace(b)
    ensures Sanitize(Str([a, ' ', b]), 2) == [a, ' ']
    ensures Sanitize(Str([a, ' ']), 2) == [a]
  {
    CutAtSpace(a, b);
    SpaceEndStrips(a);
  }

  lemma CutAtSpace(a: char, b: char)
    requires a != '\0' && b != '\0' && !IsSpace(a) && !IsSpace(b)
    ensures Sanitize(Str([a, ' ', b]), 2) == [a, ' ']
  {
    var s := [a, ' ', b];
    assert '\0' !in s;
    SanitizeCleanCut(s, 2);
    assert s[..2] == [a, ' '];
  }

  lemma SpaceEndStrips(a: char)
    requires a != '\0' && !IsSpace(a)
    ensures Sanitize(Str([a, ' ']), 2) == [a]
  {
    var t := [a, ' '];
    assert '\0' !in t;
    assert Strip(t) == [a] by {
      assert StripStart(t) == 0;
      assert SpaceRunStart(t, 2) == 1;
      assert t[0..1] == [a];
    }
  }

  // ---------------- ids ----------------

  /** `validate_id`: `int(value)` when that succeeds and is positive; every
      other value raises "Invalid ID format". */
  function ValidateId(v: JsonValue): (r: Option<int>)
    ensures r.Some? <==> PyInt(v).Some? && PyInt(v).value > 0
    ensures r.Some? ==> r.value == PyInt(v).value
  {
    match PyInt(v)
    case None => None
    case Some(n) => if n > 0 then Some(n) else None
  }

  /** A positive id, sent as an integer or as its decimal text, is accepted
      as itself; the result re-validates to itself. */
  lemma ValidateIdRoundTrip(n: nat)
    requires n > 0
    ensures ValidateId(JsonInt(n)) == Some(n as int)
    ensures ValidateId(JsonString(NatToString(n))) == Some(n as int)
  {
    PyIntOfRendered(n);
  }

  /** What `int()` accepts besides integers: `True` is id 1, and a float is
      truncated, so 1.5 is id 1 as well; zero and negatives never pass. */
  lemma ValidateIdQuirks(n: int)
    ensures ValidateId(JsonBool(true)) == Some(1)
    ensures ValidateId(JsonFloat(1.5)) == Some(1)
    ensures n <= 0 ==> ValidateId(JsonInt(n)).None?
  {
    assert Truncate(1.5) == 1;
  }

  // ---------------- phone numbers ----------------

  /** The characters `validate_phone` deletes: whitespace, '-', '(', ')', '.'. */
  predicate Formatting(c: char) { IsSpace(c) || c == '-' || c == '(' || c == ')' || c == '.' }

  /** `re.sub(r'[\s\-\(\)\.]', '', s)` */
  function RemoveFormatting(s: string): (r: string)
    ensures |r| <= |s|
    ensures forall i :: 0 <= i < |r| ==> !Formatting(r[i])
    ensures (forall i :: 0 <= i < |s| ==> !Formatting(s[i])) ==> r == s
    ensures forall c :: c in r ==> c in s
    ensures |s| == 1 ==> r == if Formatting(s[0]) then [] else s
  {
    if |s| == 0 then []
    else if Formatting(s[0]) then RemoveFormatting(s[1..])
    else
      assert s == [s[0]] + s[1..];
      [s[0]] + RemoveFormatting(s[1..])
  }

  /** The formatting pass works piece by piece, so the characters it keeps
      stay in their order. */
  lemma {:induction false} RemoveFormattingAppend(a: string, b: string)
    ensures RemoveFormatting(a + b) == RemoveFormatting(a) + RemoveFormatting(b)
    decreases |a|
  {
    if |a| > 0 {
      assert (a + b)[1..] == a[1..] + b;
      RemoveFormattingAppend(a[1..], b);
    } else {
      assert a + b == b;
    }
  }

  /** An optional '+' and then 10 to 15 ASCII digits. */
  predicate PhoneShape(p: string) {
    var digits := if |p| > 0 && p[0] == '+' then p[1..] else p;
    10 <= |digits| <= 15 && AllDigits(digits)
  }

  /** `validate_phone`: sanitize to 20 characters, delete the formatting
      characters, and accept only the shape above. */
  function ValidatePhone(v: Input): (r: Option<string>)
    ensures r.Some? <==> PhoneShape(RemoveFormatting(Sanitize(v, 20)))
    ensures r.Some? ==> r.value == RemoveFormatting(Sanitize(v, 20))
    ensures r.Some? ==> PhoneShape(r.value) && |r.value| <= 16
    ensures r.Some? ==> forall i :: 0 <= i < |r.value| ==> !Formatting(r.value[i])
  {
    var p := RemoveFormatting(Sanitize(v, 20));
    if PhoneShape(p) then Some(p) else None
  }

  /** Every character of an accepted phone number is a digit or '+'. */
  lemma PhoneCharacters(p: string)
    requires PhoneShape(p)
    ensures forall i :: 0 <= i < |p| ==> IsDigit(p[i]) || p[i] == '+'
  {
    if |p| > 0 && p[0] == '+' {
      forall i | 1 <= i < |p| ensures IsDigit(p[i]) {
        assert p[i] == p[1..][i - 1];
      }
    }
  }

  /** An accepted phone number has nothing for `sanitize_string` or the
      formatting pass to remove. */
  lemma PhoneIsClean(p: string)
    requires PhoneShape(p)
    ensures '\0' !in p && !IsSpace(p[0]) && !IsSpace(p[|p| - 1])
    ensures forall i :: 0 <= i < |p| ==> !Formatting(p[i])
  {
    PhoneCharacters(p);
    forall i | 0 <= i < |p| ensures p[i] != '\0' && !Formatting(p[i]) {
      assert IsDigit(p[i]) || p[i] == '+';
    }
  }

  /** `validate_phone` is idempotent: its result validates to itself. */
  lemma ValidatePhoneIdempotent(v: Input)
    requires ValidatePhone(v).Some?
    ensures ValidatePhone(Str(ValidatePhone(v).value)) == ValidatePhone(v)
  {
    var p := ValidatePhone(v).value;
    PhoneIsClean(p);
    SanitizeFixedPoint(p, 20);
    assert RemoveFormatting(Sanitize(Str(p), 20)) == p;
  }

  // ---------------- e-mail addresses ----------------

  predicate LocalChar(c: char) {
    IsAsciiLetter(c) || IsDigit(c) || c == '.' || c == '_' || c == '%' || c == '+' || c == '-'
  }

  predicate DomainChar(c: char) { IsAsciiLetter(c) || IsDigit(c) || c == '.' || c == '-' }

  /** The split of a candidate address the e-mail pattern needs: local part
      before `at`, domain between `at` and `dot`, top-level domain after
      `dot`, each non-empty and the last at least two letters. */
  predicate SplitAt(e: string, at: int, dot: int) {
    && 0 < at && at + 1 < dot && dot + 3 <= |e|
    && e[at] == '@' && e[dot] == '.'
    && (forall i :: 0 <= i < at ==> LocalChar(e[i]))
    && (forall i :: at < i < dot ==> DomainChar(e[i]))
    && (forall i :: dot < i < |e| ==> IsAsciiLetter(e[i]))
  }

  /** The whole string has the form the pattern
      `[a-zA-Z0-9._%+-]+@[a-zA-Z0-9.-]+\.[a-zA-Z]{2,}` describes. */
  predicate EmailShape(e: string) {
    exists at, dot :: 0 < at < |e| && 0 < dot < |e| && SplitAt(e, at, dot)
  }

  /** `re.match` with that pattern between `^` and `$`: `$` also matches just
      before a final newline, so one trailing "\n" is let through. */
  predicate MatchesAsWritten(s: string) {
    EmailShape(s) || (|s| > 0 && s[|s| - 1] == '\n' && EmailShape(s[..|s| - 1]))
  }

  /** `validate_email` as written: sanitize to 254 characters, match, and
      return the address in lower case. */
  function ValidateEmailAsWritten(v: Input): (r: Option<string>)
    ensures r.Some? <==> MatchesAsWritten(Sanitize(v, 254))
    ensures r.Some? ==> r.value == Lower(Sanitize(v, 254))
    ensures r.Some? ==> |r.value| <= 254 && forall i :: 0 <= i < |r.value| ==> !IsAsciiUpper(r.value[i])
  {
    var s := Sanitize(v, 254);
    if MatchesAsWritten(s) then Some(Lower(s)) else None
  }

  /** `validate_email` with the whole string required to match: the result
      is a lower-case address of the required form, with no whitespace. */
  function ValidateEmail(v: Input): (r: Option<string>)
    ensures r.Some? <==> EmailShape(Sanitize(v, 254))
    ensures r.Some? ==> r.value == Lower(Sanitize(v, 254))
    ensures r.Some? ==> EmailShape(r.value) && |r.value| <= 254
    ensures r.Some? ==> forall i :: 0 <= i < |r.value| ==> !IsAsciiUpper(r.value[i]) && !IsSpace(r.value[i])
  {
    var s := Sanitize(v, 254);
    if EmailShape(s) then
      LowerKeepsEmailShape(s);
      EmailShapeHasNoSpace(Lower(s));
      Some(Lower(s))
    else None
  }

  lemma LowerKeepsEmailShape(e: string)
    requires EmailShape(e)
    ensures EmailShape(Lower(e))
  {
    var at, dot :| 0 < at < |e| && 0 < dot < |e| && SplitAt(e, at, dot);
    var l := Lower(e);
    forall i | 0 <= i < |e| ensures LocalChar(e[i]) ==> LocalChar(l[i]) {}
    forall i | 0 <= i < |e| ensures DomainChar(e[i]) ==> DomainChar(l[i]) {}
    forall i | 0 <= i < |e| ensures IsAsciiLetter(e[i]) ==> IsAsciiLetter(l[i]) {}
    assert SplitAt(l, at, dot);
  }

  lemma EmailShapeHasNoSpace(e: string)
    requires EmailShape(e)
    ensures forall i :: 0 <= i < |e| ==> !IsSpace(e[i])
  {
    var at, dot :| 0 < at < |e| && 0 < dot < |e| && SplitAt(e, at, dot);
  }

  /** No string ending in a newline has the required form. */
  lemma NewlineEndIsNoEmail(x: string)
    requires |x| > 0 && x[|x| - 1] == '\n'
    ensures !EmailShape(x)
  {
    forall at, dot | 0 < at < |x| && 0 < dot < |x| ensures !SplitAt(x, at, dot) {
      if 0 <= dot && dot + 3 <= |x| {
        assert x[dot + 1..][|x| - dot - 2] == '\n';
      }
    }
  }

  /** A 253-character address. */
  function LongAddress(): (e: string)
    ensures |e| == 253
  {
    "a@" + seq(248, _ => 'b') + ".cd"
  }

  lemma LongAddressIsEmail()
    ensures EmailShape(LongAddress())
  {
    var e := LongAddress();
    forall i | 1 < i < 250 ensures DomainChar(e[i]) {
      assert e[i] == 'b';
    }
    assert SplitAt(e, 1, 250);
  }

  /** The `$` slip: a valid 253-character address followed by a newline and
      more text is cut by sanitizing right after the newline, and the
      address comes back with the newline on it; matching the whole string
      refuses the same input. */
  lemma TrailingNewlineGetsThrough()
    ensures var v := Str(LongAddress() + "\nx");
      && ValidateEmailAsWritten(v).Some?
      && ValidateEmailAsWritten(v).value[|ValidateEmailAsWritten(v).value| - 1] == '\n'
      && ValidateEmail(v).None?
  {
    SanitizeLongInput();
    CutMatchesOnlyAsWritten();
  }

  lemma SanitizeLongInput()
    ensures Sanitize(Str(LongAddress() + "\nx"), 254) == LongAddress() + "\n"
  {
    LongInputIsClean();
    SanitizeCleanCut(LongAddress() + "\nx", 254);
    CutIsAddressAndNewline();
  }

  lemma CutMatchesOnlyAsWritten()
    ensures var cut := LongAddress() + "\n";
      MatchesAsWritten(cut) && !EmailShape(cut) && Lower(cut)[|cut| - 1] == '\n'
  {
    var cut := LongAddress() + "\n";
    LongAddressIsEmail();
    assert cut[..|cut| - 1] == LongAddress();
    NewlineEndIsNoEmail(cut);
  }

  /** A clean string is only cut by sanitizing. */
  lemma SanitizeCleanCut(s: string, n: nat)
    requires '\0' !in s && |s| > 0 && !IsSpace(s[0]) && !IsSpace(s[|s| - 1]) && n <= |s|
    ensures Sanitize(Str(s), n) == s[..n]
  {
    StripFixed(s);
  }

  lemma LongInputIsClean()
    ensures var s := LongAddress() + "\nx";
      '\0' !in s && |s| == 255 && !IsSpace(s[0]) && !IsSpace(s[|s| - 1])
  {
    var e := LongAddress();
    var s := e + "\nx";
    forall i | 0 <= i < |s| ensures s[i] != '\0' {
      if 2 <= i < 250 {
        assert s[i] == 'b';
      }
    }
  }

  lemma CutIsAddressAndNewline()
    ensures (LongAddress() + "\nx")[..254] == LongAddress() + "\n"
  {
  }
}
