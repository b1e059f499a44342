/**
 The string operations the client uses: `String(n)` for naturals,
 `padStart`, `join`/`split` on a separator, `startsWith` and `trim`.
 Characters are Unicode scalar values.
 */
module Text {

  // ---------------------------------------------------------------------------
  // Decimal digits

  predicate IsDigit(c: char) {
    '0' <= c <= '9'
  }

  predicate AllDigits(s: string) {
    forall i :: 0 <= i < |s| ==> IsDigit(s[i])
  }

  function DigitChar(d: nat): (c: char)
    requires d < 10
    ensures IsDigit(c)
  {
    "0123456789"[d]
  }

  function DigitValue(c: char): (d: nat)
    requires IsDigit(c)
    ensures d < 10
  {
    (c as int - '0' as int) as nat
  }

  lemma DigitRoundTrip(d: nat)
    requires d < 10
    ensures DigitValue(DigitChar(d)) == d
  {
  }

  /** `String(n)` for a natural number: shortest decimal form, no leading zeros. */
  function Digits(n: nat): (s: string)
    ensures 1 <= |s|
    ensures AllDigits(s)
    decreases n
  {
    if n < 10 then [DigitChar(n)] else Digits(n / 10) + [DigitChar(n % 10)]
  }

  /** Reads a string of decimal digits, leading zeros allowed; the partner of `Digits`. */
  function ReadDigits(s: string): nat
    requires AllDigits(s)
    decreases |s|
  {
    if |s| == 0 then 0 else ReadDigits(s[..|s| - 1]) * 10 + DigitValue(s[|s| - 1])
  }

  lemma {:induction false} ReadDigitsOfDigits(n: nat)
    ensures ReadDigits(Digits(n)) == n
    decreases n
  {
    var s := Digits(n);
    if n < 10 {
      DigitRoundTrip(n);
    } else {
      assert s[..|s| - 1] == Digits(n / 10);
      ReadDigitsOfDigits(n / 10);
      DigitRoundTrip(n % 10);
    }
  }

  /** Distinct naturals print differently: `String(i)` names index `i` alone. */
  lemma DigitsInjective()
    ensures forall a: nat, b: nat :: Digits(a) == Digits(b) ==> a == b
  {
    forall a: nat, b: nat | Digits(a) == Digits(b)
      ensures a == b
    {
      ReadDigitsOfDigits(a);
      ReadDigitsOfDigits(b);
    }
  }

  /** `Digits(n)` has more than one digit exactly when `n` does not fit in one. */
  lemma {:induction false} DigitsLength(n: nat)
    ensures |Digits(n)| == 1 <==> n < 10
    ensures n < 100 ==> |Digits(n)| <= 2
    ensures n >= 10 ==> |Digits(n)| >= 2
  {
    if n >= 10 {
      assert |Digits(n)| == |Digits(n / 10)| + 1;
    }
  }

  /** A positive number is written without a leading zero. */
  lemma {:induction false} DigitsNoLeadingZero(n: nat)
    requires n > 0
    ensures Digits(n)[0] != '0'
    decreases n
  {
    if n >= 10 {
      assert Digits(n)[0] == Digits(n / 10)[0];
      DigitsNoLeadingZero(n / 10);
    }
  }

  /** Leading zeros do not change the value read. */
  lemma {:induction false} ReadDigitsLeadingZeros(z: nat, s: string)
    requires AllDigits(s)
    ensures AllDigits(Repeat('0', z) + s)
    ensures ReadDigits(Repeat('0', z) + s) == ReadDigits(s)
    decreases |s|
  {
    var t := Repeat('0', z) + s;
    assert AllDigits(t) by {
      forall i | 0 <= i < |t| ensures IsDigit(t[i]) {
        if i < z { assert t[i] == Repeat('0', z)[i]; } else { assert t[i] == s[i - z]; }
      }
    }
    if |s| == 0 {
      assert t == Repeat('0', z);
      ReadZeros(z);
    } else {
      assert t[..|t| - 1] == Repeat('0', z) + s[..|s| - 1];
      ReadDigitsLeadingZeros(z, s[..|s| - 1]);
    }
  }

  lemma {:induction false} ReadZeros(z: nat)
    ensures AllDigits(Repeat('0', z))
    ensures ReadDigits(Repeat('0', z)) == 0
    decreases z
  {
    if z > 0 {
      assert Repeat('0', z)[..z - 1] == Repeat('0', z - 1);
      ReadZeros(z - 1);
    }
  }

  // ---------------------------------------------------------------------------
  // padStart

  function Repeat(c: char, n: nat): (s: string)
    ensures |s| == n
    ensures forall i :: 0 <= i < n ==> s[i] == c
    decreases n
  {
    if n == 0 then [] else Repeat(c, n - 1) + [c]
  }

  /** `s.padStart(width, [c])`: fill on the left up to `width`; never truncates. */
  function PadStart(s: string, width: nat, c: char): (r: string)
    ensures |r| == if |s| < width then width else |s|
    ensures r == Repeat(c, |r| - |s|) + s
  {
    if |s| < width then Repeat(c, width - |s|) + s else s
  }

  /** `String(n).padStart(2, "0")`: the two-digit clock field. */
  function TwoDigits(n: nat): (s: string)
    ensures AllDigits(s)
    ensures 2 <= |s|
    ensures ReadDigits(s) == n
    // padded to exactly two characters below 100, and never padded from 10 on
    ensures n < 100 ==> |s| == 2
    ensures n >= 10 ==> s[0] != '0'
  {
    var d := Digits(n);
    var s := PadStart(d, 2, '0');
    DigitsLength(n);
    ReadDigitsOfDigits(n);
    ReadDigitsLeadingZeros(|s| - |d|, d);
    if n > 0 then (DigitsNoLeadingZero(n); s) else s
  }

  /** From 10 on the field is `String(n)` itself: `padStart` adds nothing. */
  lemma TwoDigitsUnpadded(n: nat)
    requires n >= 10
    ensures TwoDigits(n) == Digits(n)
  {
    DigitsLength(n);
  }

  // ---------------------------------------------------------------------------
  // join / split

  /** `parts.join(sep)` for a one-character separator. */
  function Join(parts: seq<string>, sep: char): string
    decreases |parts|
  {
    if |parts| == 0 then ""
    else if |parts| == 1 then parts[0]
    else parts[0] + [sep] + Join(parts[1..], sep)
  }

  /** Two or three parts joined, written out. */
  lemma JoinShort(a: string, b: string, c: string, sep: char)
    ensures Join([a, b], sep) == a + [sep] + b
    ensures Join([a, b, c], sep) == a + [sep] + b + [sep] + c
  {
    assert [a, b][1..] == [b];
    assert [a, b, c][1..] == [b, c];
    assert [b, c][1..] == [c];
    assert Join([b, c], sep) == b + [sep] + c;
    assert Join([a, b, c], sep) == a + [sep] + (b + [sep] + c);
  }

  /** `s.split(sep)` for a one-character separator; the partner of `Join`. */
  function Split(s: string, sep: char): (parts: seq<string>)
    ensures 1 <= |parts|
    decreases |s|
  {
    if |s| == 0 then [""]
    else
      var rest := Split(s[1..], sep);
      if s[0] == sep then [""] + rest else [[s[0]] + rest[0]] + rest[1..]
  }

  /** Number of occurrences of `c` in `s`. */
  function Occurrences(s: string, c: char): nat
    decreases |s|
  {
    if |s| == 0 then 0 else (if s[0] == c then 1 else 0) + Occurrences(s[1..], c)
  }

  lemma {:induction false} SplitFree(a: string, sep: char)
    requires sep !in a
    ensures Split(a, sep) == [a]
    decreases |a|
  {
    if |a| > 0 {
      SplitFree(a[1..], sep);
      assert [a[0]] + a[1..] == a;
    }
  }

  lemma {:induction false} SplitAt(a: string, sep: char, b: string)
    requires sep !in a
    ensures Split(a + [sep] + b, sep) == [a] + Split(b, sep)
    decreases |a|
  {
    var s := a + [sep] + b;
    if |a| == 0 {
      assert s[1..] == b;
    } else {
      assert s[1..] == a[1..] + [sep] + b;
      SplitAt(a[1..], sep, b);
      assert [a[0]] + a[1..] == a;
    }
  }

  lemma {:induction false} OccurrencesAppend(a: string, b: string, c: char)
    ensures Occurrences(a + b, c) == Occurrences(a, c) + Occurrences(b, c)
    decreases |a|
  {
    if |a| > 0 {
      assert (a + b)[0] == a[0];
      assert (a + b)[1..] == a[1..] + b;
      OccurrencesAppend(a[1..], b, c);
    } else {
      assert a + b == b;
    }
  }

  lemma {:induction false} OccurrencesFree(a: string, c: char)
    requires c !in a
    ensures Occurrences(a, c) == 0
    decreases |a|
  {
    if |a| > 0 {
      OccurrencesFree(a[1..], c);
    }
  }

  /** Splitting undoes joining when no part contains the separator; joining adds one separator per gap. */
  lemma {:induction false} SplitJoin(parts: seq<string>, sep: char)
    requires 1 <= |parts|
    requires forall i :: 0 <= i < |parts| ==> sep !in parts[i]
    ensures Split(Join(parts, sep), sep) == parts
    ensures Occurrences(Join(parts, sep), sep) == |parts| - 1
    decreases |parts|
  {
    if |parts| == 1 {
      SplitFree(parts[0], sep);
      OccurrencesFree(parts[0], sep);
    } else {
      SplitJoin(parts[1..], sep);
      SplitAt(parts[0], sep, Join(parts[1..], sep));
      assert [parts[0]] + parts[1..] == parts;
      OccurrencesAppend(parts[0] + [sep], Join(parts[1..], sep), sep);
      OccurrencesAppend(parts[0], [sep], sep);
      OccurrencesFree(parts[0], sep);
    }
  }

  lemma DigitsHaveNoColon(s: string)
    requires AllDigits(s)
    ensures ':' !in s
  {
    forall i | 0 <= i < |s| ensures s[i] != ':' {
      assert IsDigit(s[i]);
    }
  }

  // ---------------------------------------------------------------------------
  // startsWith

  predicate StartsWith(s: string, prefix: string) {
    |prefix| <= |s| && s[..|prefix|] == prefix
  }

  // ---------------------------------------------------------------------------
  // trim

  /** The characters `String.prototype.trim` removes: ECMAScript WhiteSpace and LineTerminator. */
  predicate IsSpace(c: char) {
    || c == '\t' || c == '\n' || c == '\U{B}' || c == '\U{C}' || c == '\r' || c == ' '
    || c == '\U{A0}' || c == '\U{1680}' || ('\U{2000}' <= c <= '\U{200A}')
    || c == '\U{2028}' || c == '\U{2029}' || c == '\U{202F}' || c == '\U{205F}' || c == '\U{3000}' || c == '\U{FEFF}'
  }

  function TrimStart(s: string): (r: string)
    ensures |r| <= |s| && r == s[|s| - |r|..]
    ensures |r| > 0 ==> !IsSpace(r[0])
    ensures forall i :: 0 <= i < |s| - |r| ==> IsSpace(s[i])
    decreases |s|
  {
    if |s| > 0 && IsSpace(s[0]) then TrimStart(s[1..]) else s
  }

  function TrimEnd(s: string): (r: string)
    ensures |r| <= |s| && r == s[..|r|]
    ensures |r| > 0 ==> !IsSpace(r[|r| - 1])
    ensures forall i :: |r| <= i < |s| ==> IsSpace(s[i])
    decreases |s|
  {
    if |s| > 0 && IsSpace(s[|s| - 1]) then TrimEnd(s[..|s| - 1]) else s
  }

  /** `s.trim()` */
  function Trim(s: string): string {
    TrimEnd(TrimStart(s))
  }

  /** `!s.trim()`: the guard the comment and account forms use. It holds exactly for all-whitespace strings. */
  lemma BlankIffAllSpace(s: string)
    ensures Trim(s) == "" <==> forall i :: 0 <= i < |s| ==> IsSpace(s[i])
  {
    var t := TrimStart(s);
    if Trim(s) == "" {
      assert |t| == 0;
    } else {
      assert |t| > 0;
      assert !IsSpace(t[0]);
      assert t[0] == s[|s| - |t|];
    }
  }
}
