/** Printing and reading numbers: `ltoa` and `atoi` (kernel/src/misc/string.c), `pad` (kernel/src/misc/debug.c). */
module Numbers {
  import opened Memory

  type Text = seq<Byte>

  const MINUS: Byte := 45
  const ZERO: Byte := 48

  /** The character of a digit: 0-9, then upper-case letters. */
  function Digit(d: nat): Byte
    requires d < 36
  {
    if d <= 9 then d + 48 else d - 10 + 65
  }

  /** The digit of a character. */
  function DigitValue(c: Byte): int {
    if c >= 65 then c - 65 + 10 else c - 48
  }

  /** What a text of digits denotes. */
  function Value(s: Text, radix: nat): int {
    if s == [] then 0 else Value(s[..|s| - 1], radix) * radix + DigitValue(s[|s| - 1])
  }

  /** The digits of `n`, most significant first. */
  function Digits(n: nat, radix: nat): (r: Text)
    requires 2 <= radix <= 36
    ensures r != []
    decreases n
  {
    if n < radix then [Digit(n)] else Smaller(n, radix); Digits(n / radix, radix) + [Digit(n % radix)]
  }

  lemma Smaller(n: nat, radix: nat)
    requires 2 <= radix <= n
    ensures n / radix < n && 0 < n / radix
  {
    var q := n / radix;
    assert n == q * radix + n % radix;
    assert q * 2 <= q * radix by { Scale(q, 2, radix); }
  }

  lemma Scale(q: nat, a: nat, b: nat)
    requires a <= b
    ensures q * a <= q * b
  {
    assert q * b == q * a + q * (b - a);
  }

  ghost predicate DigitsOnly(s: Text, radix: nat) {
    forall i :: 0 <= i < |s| ==> 0 <= DigitValue(s[i]) < radix && s[i] >= ZERO
  }

  /** The digits denote the number, and there is no superfluous zero in front. */
  lemma {:induction false} DigitsDenote(n: nat, radix: nat)
    requires 2 <= radix <= 36
    ensures Value(Digits(n, radix), radix) == n && DigitsOnly(Digits(n, radix), radix)
    ensures n > 0 ==> Digits(n, radix)[0] != ZERO
    decreases n
  {
    hide Value, Digits, Digit, DigitValue;
    if n < radix {
      OneDigit(n, radix);
    } else {
      Smaller(n, radix);
      DigitsDenote(n / radix, radix);
      DigitsStep(n, radix);
      ValueStep(Digits(n / radix, radix), Digit(n % radix), radix);
      DigitOk(n % radix, radix);
      DivMod(n, radix);
    }
  }

  lemma DigitOk(d: nat, radix: nat)
    requires d < radix <= 36
    ensures DigitValue(Digit(d)) == d && Digit(d) >= ZERO && (d > 0 ==> Digit(d) != ZERO)
  {
  }

  lemma OneDigit(n: nat, radix: nat)
    requires n < radix <= 36 && 2 <= radix
    ensures Digits(n, radix) == [Digit(n)] && Value([Digit(n)], radix) == n && DigitsOnly([Digit(n)], radix)
    ensures n > 0 ==> Digit(n) != ZERO
  {
    ValueStep([], Digit(n), radix);
    assert [] + [Digit(n)] == [Digit(n)];
  }

  lemma DigitsStep(n: nat, radix: nat)
    requires 2 <= radix <= 36 && n >= radix
    ensures Digits(n, radix) == Digits(n / radix, radix) + [Digit(n % radix)]
  {
  }

  lemma ValueStep(s: Text, c: Byte, radix: nat)
    ensures Value(s + [c], radix) == Value(s, radix) * radix + DigitValue(c)
  {
    assert (s + [c])[..|s|] == s;
  }

  lemma DivMod(n: nat, k: nat)
    requires k > 0
    ensures n == n / k * k + n % k && n % k < k
  {
  }

  /** The number that `ltoa` prints: other radices than ten take the two's complement. */
  function Unsigned(num: int, radix: nat): nat
    requires -0x8000_0000_0000_0000 <= num < 0x8000_0000_0000_0000
  {
    if num >= 0 then num else if radix == 10 then -num else num + WORD_LIMIT
  }

  function Printed(num: int, radix: nat): Text
    requires 2 <= radix <= 36 && -0x8000_0000_0000_0000 <= num < 0x8000_0000_0000_0000
  {
    (if num < 0 && radix == 10 then [MINUS] else []) + Digits(Unsigned(num, radix), radix)
  }

  /** What a decimal text with an optional sign denotes. */
  function Denoted(s: Text): int {
    if s != [] && s[0] == MINUS then -Value(s[1..], 10) else Value(s, 10)
  }

  /** A decimal print denotes its number. */
  lemma PrintedDenotes(num: int)
    requires -0x8000_0000_0000_0000 <= num < 0x8000_0000_0000_0000
    ensures Denoted(Printed(num, 10)) == num
  {
    var n := Unsigned(num, 10);
    DigitsDenote(n, 10);
    var s := Printed(num, 10);
    if num < 0 {
      assert s[1..] == Digits(n, 10);
    } else {
      assert s == Digits(n, 10);
    }
  }

  /** In any other radix the digits, without a sign, denote the 64-bit word: the number, or its two's complement. */
  lemma PrintedWord(num: int, radix: nat)
    requires -0x8000_0000_0000_0000 <= num < 0x8000_0000_0000_0000 && 2 <= radix <= 36 && radix != 10
    ensures DigitsOnly(Printed(num, radix), radix)
    ensures var w := Value(Printed(num, radix), radix);
            0 <= w < 0x1_0000_0000_0000_0000 && (w == num || w == num + 0x1_0000_0000_0000_0000)
  {
    hide Digits, Value, DigitsOnly;
    DigitsDenote(Unsigned(num, radix), radix);
    assert Printed(num, radix) == Digits(Unsigned(num, radix), radix);
  }

  /** Ten to thirty-five are printed as upper-case letters. */
  lemma DigitBytes(d: nat)
    requires d < 36
    ensures Digit(d) == if d < 10 then 48 + d else 55 + d
  {
  }

  function Pow10(k: nat): nat {
    if k == 0 then 1 else 10 * Pow10(k - 1)
  }

  lemma {:induction false} DigitCount(n: nat, k: nat)
    requires n < Pow10(k) && k > 0
    ensures |Digits(n, 10)| <= k
    decreases k
  {
    if n >= 10 {
      Smaller(n, 10);
      DigitCount(n / 10, k - 1);
    }
  }

  // ----- C strings in buffers -----

  /** The buffer holds the text and its terminating zero. */
  ghost predicate Holds(a: Text, s: Text) {
    |s| < |a| && a[..|s|] == s && a[|s|] == 0 && 0 !in s
  }

  method Strlen(a: array<Byte>, ghost s: Text) returns (n: nat)
    requires Holds(a[..], s)
    ensures n == |s|
  {
    n := 0;
    while a[n] != 0
      invariant n <= |s|
      decreases |s| - n
    {
      assert a[..][n] == a[n];
      assert n < |s|;
      n := n + 1;
    }
  }

  function Reversed(s: Text): Text {
    if s == [] then [] else [s[|s| - 1]] + Reversed(s[..|s| - 1])
  }

  lemma {:induction false} ReversedAt(s: Text, k: nat)
    requires k < |s|
    ensures |Reversed(s)| == |s| && Reversed(s)[k] == s[|s| - 1 - k]
    decreases |s|
  {
    if |s| > 1 {
      ReversedAt(s[..|s| - 1], if k > 0 then k - 1 else 0);
    }
  }

  /** The digits as the loop of `ltoa` writes them, least significant first. */
  function Backwards(n: nat, radix: nat): (r: Text)
    requires 2 <= radix <= 36
    ensures r != []
    decreases n
  {
    if n < radix then [Digit(n)] else Smaller(n, radix); [Digit(n % radix)] + Backwards(n / radix, radix)
  }

  lemma {:induction false} BackwardsReversed(n: nat, radix: nat)
    requires 2 <= radix <= 36
    ensures Reversed(Backwards(n, radix)) == Digits(n, radix)
    ensures DigitsOnly(Backwards(n, radix), radix)
    decreases n
  {
    if n < radix {
      assert [Digit(n)][..0] == [];
    } else {
      Smaller(n, radix);
      BackwardsReversed(n / radix, radix);
      ReversedFront(Digit(n % radix), Backwards(n / radix, radix));
    }
  }

  lemma {:induction false} ReversedFront(c: Byte, s: Text)
    ensures Reversed([c] + s) == Reversed(s) + [c]
    decreases |s|
  {
    var all := [c] + s;
    if s == [] {
      assert all[..0] == [];
    } else {
      assert all[..|all| - 1] == [c] + s[..|s| - 1];
      ReversedFront(c, s[..|s| - 1]);
    }
  }

  lemma {:induction false} BackwardsLength(n: nat, radix: nat, k: nat)
    requires 2 <= radix <= 36 && k > 0 && n < Pow2(k)
    ensures |Backwards(n, radix)| <= k
    decreases k
  {
    if n >= radix {
      Smaller(n, radix);
      DivMod(n, radix);
      Scale(n / radix, 2, radix);
      assert Pow2(k) == 2 * Pow2(k - 1);
      BackwardsLength(n / radix, radix, k - 1);
    }
  }

  lemma DigitsNonzero(s: Text, radix: nat)
    requires DigitsOnly(s, radix)
    ensures 0 !in s
  {
  }

  // ----- ltoa -----

  /** The index that `k` changes places with. */
  function Mirror(lo: int, hi: int, k: int): int {
    lo + (hi - 1) - k
  }

  /** `r` is `s` with the range turned around. */
  ghost predicate Turned(s: Text, r: Text, lo: nat, hi: nat) {
    && |r| == |s| && lo <= hi <= |s|
    && (forall k :: 0 <= k < |s| && !(lo <= k < hi) ==> r[k] == s[k])
    && (forall k :: lo <= k < hi ==> r[k] == s[Mirror(lo, hi, k)])
  }

  /** The loop that reverses the buffer in place. */
  method Reverse(a: array<Byte>, lo: nat, hi: nat)
    requires lo < hi <= a.Length
    modifies a
    ensures Turned(old(a[..]), a[..], lo, hi)
  {
    var i, i2 := hi - 1, lo;
    while i2 < i
      invariant lo <= i2 <= hi && lo - 1 <= i < hi && i2 - lo == hi - 1 - i
      invariant forall k :: 0 <= k < a.Length && !(lo <= k < i2) && !(i < k < hi) ==> a[k] == old(a[k])
      invariant forall k :: lo <= k < i2 || i < k < hi ==> a[k] == old(a[Mirror(lo, hi, k)])
    {
      var c := a[i2];
      a[i2] := a[i];
      a[i] := c;
      i2 := i2 + 1;
      i := i - 1;
    }
  }

  lemma TurnedRange(s: Text, r: Text, lo: nat, hi: nat)
    requires Turned(s, r, lo, hi)
    ensures r[..lo] == s[..lo] && r[lo..hi] == Reversed(s[lo..hi]) && r[hi..] == s[hi..]
  {
    hide Reversed;
    ReversedIs(s[lo..hi], r[lo..hi]);
  }

  lemma ReversedIs(s: Text, r: Text)
    requires |r| == |s| && forall k :: 0 <= k < |s| ==> r[k] == s[|s| - 1 - k]
    ensures r == Reversed(s)
  {
    hide Reversed;
    if s == [] {
      EmptyReversed();
    } else {
      ReversedAt(s, 0);
      forall k | 0 <= k < |s| ensures r[k] == Reversed(s)[k] {
        ReversedAt(s, k);
      }
    }
  }

  lemma EmptyReversed()
    ensures Reversed([]) == []
  {
  }

  function Quotient(n: nat, radix: nat): nat
    requires radix > 0
  {
    n / radix
  }

  function Remainder(n: nat, radix: nat): (r: nat)
    requires radix > 0
    ensures r < radix
  {
    n % radix
  }

  /** The digits of `n` from index `start` on, least significant first; returns the index after them. */
  method WriteDigits(n: nat, a: array<Byte>, start: nat, radix: nat) returns (i: nat)
    requires 2 <= radix <= 36 && start + |Backwards(n, radix)| <= a.Length
    modifies a
    ensures i == start + |Backwards(n, radix)| && a[..start] == old(a[..start]) && a[start..i] == Backwards(n, radix)
  {
    hide Digit, Backwards, Quotient, Remainder;
    i := start;
    var number: nat := n;
    var more := true;
    ghost var rest := Backwards(n, radix);
    while more
      invariant start <= i && i + |rest| == start + |Backwards(n, radix)|
      invariant rest == Backwards(n, radix)[i - start..]
                && (if more then rest == Backwards(number, radix) else rest == [])
      invariant forall k :: 0 <= k < start ==> a[k] == old(a[k])
      invariant forall k :: start <= k < i ==> a[k] == Backwards(n, radix)[k - start]
      decreases number, more
    {
      BackwardsStep(number, radix);
      QuotientLess(number, radix);
      var tmp := Remainder(number, radix);
      assert rest[0] == Digit(tmp) == Backwards(n, radix)[i - start];
      a[i] := Digit(tmp);
      number := Quotient(number, radix);
      rest := rest[1..];
      i := i + 1;
      more := number != 0;
    }
  }

  lemma BackwardsStep(n: nat, radix: nat)
    requires 2 <= radix <= 36
    ensures Backwards(n, radix) ==
            [Digit(Remainder(n, radix))] + if Quotient(n, radix) == 0 then [] else Backwards(Quotient(n, radix), radix)
  {
    if n < radix {
      SmallDiv(n, radix);
    } else {
      Smaller(n, radix);
    }
  }

  lemma QuotientLess(n: nat, radix: nat)
    requires 2 <= radix <= 36
    ensures Quotient(n, radix) < n || Quotient(n, radix) == 0
  {
    if n >= radix {
      Smaller(n, radix);
    }
  }

  lemma SmallDiv(n: nat, k: nat)
    requires n < k
    ensures n / k == 0 && n % k == n
  {
  }

  /** `ltoa`. */
  method Ltoa(num: int, buffer: array<Byte>, radix: nat)
    requires 2 <= radix <= 36 && -0x8000_0000_0000_0000 <= num < 0x8000_0000_0000_0000 && buffer.Length >= 66
    modifies buffer
    ensures Holds(buffer[..], Printed(num, radix))
  {
    hide Backwards, Digits, Reversed, Turned;
    var negative := num < 0 && radix == 10;
    var number := Unsigned(num, radix);
    var start := 0;
    if negative {
      buffer[0] := MINUS;
      start := 1;
    }
    ghost var sign := buffer[..start];
    LongEnough(number, radix);
    var i := WriteDigits(number, buffer, start, radix);
    buffer[i] := 0;
    ghost var written := buffer[..];
    assert written[..start] == sign && written[start..i] == Backwards(number, radix);
    BackwardsText(written, start, i, number, radix);
    i := Strlen(buffer, written[..i]);
    Reverse(buffer, start, i);
    TurnedText(written, buffer[..], start, i, number, radix);
  }

  lemma BackwardsText(a: Text, start: nat, i: nat, n: nat, radix: nat)
    requires 2 <= radix <= 36 && start <= i < |a| && a[i] == 0 && 0 !in a[..start] && a[start..i] == Backwards(n, radix)
    ensures Holds(a, a[..i])
  {
    BackwardsReversed(n, radix);
    DigitsNonzero(Backwards(n, radix), radix);
    hide Backwards;
    assert a[..i] == a[..start] + a[start..i];
  }

  lemma TurnedText(a: Text, r: Text, start: nat, i: nat, n: nat, radix: nat)
    requires 2 <= radix <= 36 && start <= i < |a| && a[i] == 0 && 0 !in a[..start] && a[start..i] == Backwards(n, radix)
    requires Turned(a, r, start, i)
    ensures Holds(r, a[..start] + Digits(n, radix))
  {
    TurnedRange(a, r, start, i);
    BackwardsReversed(n, radix);
    DigitsDenote(n, radix);
    DigitsNonzero(Digits(n, radix), radix);
    hide Backwards, Digits, Reversed;
    assert r[i] == r[i..][0] == a[i..][0];
    assert r[..i] == r[..start] + r[start..i];
  }

  lemma LongEnough(n: nat, radix: nat)
    requires 2 <= radix <= 36 && n < WORD_LIMIT
    ensures |Backwards(n, radix)| <= 64
  {
    var k := 16;
    Pow2Word(k);
    BackwardsLength(n, radix, k + k + k + k);
  }

  // ----- atoi -----

  newtype Int32 = x: int | -0x8000_0000 <= x < 0x8000_0000

  lemma {:induction false} ValueFront(c: Byte, s: Text)
    ensures Value([c] + s, 10) == DigitValue(c) * Pow10(|s|) + Value(s, 10)
    decreases |s|
  {
    hide Value, DigitValue;
    if s == [] {
      ValueStep([], c, 10);
      EmptyValue();
      assert [] + [c] == [c] + s;
    } else {
      var front, last := s[..|s| - 1], s[|s| - 1];
      assert s == front + [last];
      assert [c] + s == ([c] + front) + [last];
      ValueFront(c, front);
      ValueStep([c] + front, last, 10);
      ValueStep(front, last, 10);
      Shift(DigitValue(c), Pow10(|front|), Value(front, 10), DigitValue(last));
    }
  }

  lemma EmptyValue()
    ensures Value([], 10) == 0
  {
  }

  lemma Shift(d: int, p: int, v: int, l: int)
    ensures (d * p + v) * 10 + l == d * (10 * p) + (v * 10 + l)
  {
  }

  lemma {:induction false} ValueBound(s: Text)
    requires DigitsOnly(s, 10)
    ensures 0 <= Value(s, 10) < Pow10(|s|)
    decreases |s|
  {
    if s != [] {
      ValueBound(s[..|s| - 1]);
    }
  }

  lemma {:induction false} Pow10Grows(j: nat, k: nat)
    requires j <= k
    ensures 1 <= Pow10(j) <= Pow10(k)
    decreases k
  {
    if j < k {
      Pow10Grows(j, k - 1);
    } else if k > 0 {
      Pow10Grows(j - 1, k - 1);
    }
  }

  /** The last multiplier of `atoi` fits a 32-bit integer exactly up to nine digits. */
  lemma MultiplierFits(k: nat)
    ensures Pow10(k) < 0x8000_0000 <==> k <= 9
  {
    assert Pow10(5) == 100000;
    assert Pow10(9) == 1000000000;
    assert Pow10(10) == 10 * Pow10(9);
    if k <= 9 {
      Pow10Grows(k, 9);
    } else {
      Pow10Grows(10, k);
    }
  }

  /** The digits of a text, after the sign. */
  function Unsign(s: Text): Text {
    if s != [] && s[0] == MINUS then s[1..] else s
  }

  function Term(d: int, m: int): int {
    d * m
  }

  /** A product of 32-bit integers, where it does not overflow. */
  function Times(d: Int32, m: Int32): (r: Int32)
    requires -0x8000_0000 <= Term(d as int, m as int) < 0x8000_0000
    ensures r as int == Term(d as int, m as int)
  {
    d * m
  }

  /** The value of the digits from `k` on. */
  function Suffix(digits: Text, k: nat): int
    requires k <= |digits|
  {
    Value(digits[k..], 10)
  }

  /** `atoi`, in 32-bit arithmetic, on a text of at most nine digits. */
  method Atoi(str: array<Byte>, ghost s: Text) returns (result: int)
    requires Holds(str[..], s) && DigitsOnly(Unsign(s), 10) && |Unsign(s)| <= 9
    ensures result == Denoted(s)
  {
    hide Value, DigitsOnly, Pow10, Term, Times, Suffix, Holds, Unsign;
    var n := Strlen(str, s);
    TextInBuffer(str[..], s);
    var negative := if str[0] == MINUS then 1 else 0;
    ghost var digits := Unsign(s);
    var i: int := n - 1;
    var value: Int32, multiplier: Int32 := 0, 1;
    AtoiStart(digits);
    while i >= negative
      invariant negative - 1 <= i < n
      invariant multiplier as int == Pow10(n - 1 - i) && value as int == Suffix(digits, i + 1 - negative)
    {
      AtoiTurn(digits, i - negative, value as int, multiplier as int);
      value := value + Times((str[i] as int - 48) as Int32, multiplier);
      multiplier := multiplier * 10;
      i := i - 1;
    }
    AtoiEnd(digits);
    if negative == 1 {
      value := -value;
    }
    result := value as int;
  }

  /** The digits of a text are the bytes of the buffer after the sign. */
  lemma TextInBuffer(a: Text, s: Text)
    requires Holds(a, s)
    ensures (a[0] == MINUS) <==> (s != [] && s[0] == MINUS)
    ensures Denoted(s) == if a[0] == MINUS then -Value(Unsign(s), 10) else Value(Unsign(s), 10)
    ensures |s| < |a|
    ensures var k := if a[0] == MINUS then 1 else 0;
            |Unsign(s)| + k == |s| && forall j :: 0 <= j < |Unsign(s)| ==> Unsign(s)[j] == a[j + k]
  {
    assert forall k :: 0 <= k < |s| ==> s[k] == a[..|s|][k];
  }

  lemma AtoiStart(digits: Text)
    ensures Pow10(0) == 1 && Suffix(digits, |digits|) == 0
  {
  }

  lemma AtoiEnd(digits: Text)
    requires DigitsOnly(digits, 10)
    ensures Suffix(digits, 0) == Value(digits, 10) >= 0
  {
    assert digits[0..] == digits;
    ValueBound(digits);
  }

  /** One turn of the loop of `atoi` stays in range. */
  lemma AtoiTurn(digits: Text, j: nat, value: int, multiplier: int)
    requires j < |digits| <= 9 && DigitsOnly(digits, 10)
    requires multiplier == Pow10(|digits| - 1 - j) && value == Suffix(digits, j + 1)
    ensures var d := digits[j] - 48;
            && 0 <= d < 10 && 0 <= Term(d, multiplier) < 0x8000_0000
            && value + Term(d, multiplier) == Suffix(digits, j) < 0x8000_0000
            && 10 * multiplier == Pow10(|digits| - j) < 0x8000_0000
  {
    var d, tail := digits[j] - 48, digits[j + 1..];
    assert d == DigitValue(digits[j]);
    assert digits[j..] == [digits[j]] + tail;
    Fits(|tail|, |tail| + 1);
    ValueFront(digits[j], tail);
    ValueBound(digits[j..]);
    hide Value, Pow10;
    Product(d, multiplier);
  }

  lemma Product(d: int, m: int)
    requires 0 <= d < 10 && 0 <= m <= 100000000
    ensures 0 <= d * m < 0x8000_0000
  {
  }

  lemma Fits(a: nat, b: nat)
    requires b == a + 1 <= 9
    ensures Pow10(a) <= 100000000 && 10 * Pow10(a) == Pow10(b) <= 1000000000
  {
    assert Pow10(5) == 100000;
    assert Pow10(8) == 100000000;
    assert Pow10(9) == 1000000000;
    Pow10Grows(a, 8);
    Pow10Grows(b, 9);
  }

  /** Reading back what was printed: every number of at most nine digits meets the precondition of `Atoi`, and the
      text denotes it. */
  lemma PrintedReadable(num: int)
    requires -1000000000 < num < 1000000000
    ensures var s := Printed(num, 10); DigitsOnly(Unsign(s), 10) && |Unsign(s)| <= 9 && Denoted(s) == num && 0 !in s
  {
    hide Digits, Value;
    var n := Unsigned(num, 10);
    var s := Printed(num, 10);
    PrintedDenotes(num);
    DigitsDenote(n, 10);
    assert Pow10(5) == 100000;
    assert Pow10(9) == 1000000000;
    DigitCount(n, 9);
    DigitsNonzero(Digits(n, 10), 10);
    if num < 0 {
      assert s[1..] == Digits(n, 10);
    } else {
      assert s == Digits(n, 10);
    }
  }

  /** `atoi(ltoa(num, 10))`, through a buffer. */
  method PrintAndRead(num: int) returns (result: int)
    requires -1000000000 < num < 1000000000
    ensures result == num
  {
    var buffer: array<Byte> := new Byte[96](_ => 0);
    Ltoa(num, buffer, 10);
    PrintedReadable(num);
    result := Atoi(buffer, Printed(num, 10));
  }

  // ----- pad -----

  function Fill(n: nat, c: Byte): (r: Text)
    ensures |r| == n && forall k :: 0 <= k < n ==> r[k] == c
  {
    if n == 0 then [] else Fill(n - 1, c) + [c]
  }

  /** What `pad` makes: the sign stays in front. */
  function Padded(s: Text, size: nat, c: Byte): Text {
    if |s| >= size then s
    else if s == [] || s[0] != MINUS then Fill(size - |s|, c) + s
    else [MINUS] + Fill(size - |s| + 1, c) + s[1..]
  }

  /** The width: at least `size`, and one more for a negative number that is shorter. */
  lemma PaddedWidth(s: Text, size: nat, c: Byte)
    ensures |Padded(s, size, c)| ==
            if |s| >= size then |s| else if s != [] && s[0] == MINUS then size + 1 else size
  {
  }

  lemma {:induction false} ZerosInFront(n: nat, s: Text)
    ensures Value(Fill(n, ZERO) + s, 10) == Value(s, 10)
    decreases |s|
  {
    var z := Fill(n, ZERO);
    if s == [] {
      assert z + s == z;
      ZerosAreZero(n);
    } else {
      var front := s[..|s| - 1];
      assert (z + s)[..|z + s| - 1] == z + front;
      ZerosInFront(n, front);
    }
  }

  lemma {:induction false} ZerosAreZero(n: nat)
    ensures Value(Fill(n, ZERO), 10) == 0
  {
    if n > 0 {
      ZerosAreZero(n - 1);
      ValueStep(Fill(n - 1, ZERO), ZERO, 10);
    }
  }

  /** Padding with zeros keeps what a number denotes. */
  lemma PaddedDenotes(num: int, size: nat)
    requires -0x8000_0000_0000_0000 <= num < 0x8000_0000_0000_0000
    ensures Denoted(Padded(Printed(num, 10), size, ZERO)) == num
  {
    hide Value, Digits, Fill;
    var s := Printed(num, 10);
    PrintedDenotes(num);
    DigitsDenote(Unsigned(num, 10), 10);
    if |s| < size {
      if num < 0 {
        var p := Padded(s, size, ZERO);
        assert p[1..] == Fill(size - |s| + 1, ZERO) + s[1..];
        ZerosInFront(size - |s| + 1, s[1..]);
      } else {
        assert s == Digits(num, 10);
        ZerosInFront(size - |s|, s);
        FillStart(size - |s|, ZERO, s);
      }
    }
  }

  lemma FillStart(n: nat, c: Byte, s: Text)
    requires n > 0
    ensures (Fill(n, c) + s)[0] == c
  {
  }

  /** `strcpy` to index `at` of the destination. */
  method Strcpy(dest: array<Byte>, at: nat, src: array<Byte>, ghost s: Text)
    requires dest != src && Holds(src[..], s) && at + |s| < dest.Length
    modifies dest
    ensures dest[..] == old(dest[..at]) + s + [0] + old(dest[at + |s| + 1..])
  {
    var n := Strlen(src, s);
    var i := 0;
    while i < n + 1
      invariant i <= n + 1 && forall k :: 0 <= k < i ==> dest[at + k] == src[k]
      invariant forall k :: 0 <= k < dest.Length && !(at <= k < at + i) ==> dest[k] == old(dest[k])
    {
      dest[at + i] := src[i];
      i := i + 1;
    }
    CopiedText(old(dest[..]), dest[..], at, src[..], s);
  }

  lemma CopiedText(d: Text, d': Text, at: nat, src: Text, s: Text)
    requires |d'| == |d| && Holds(src, s) && at + |s| < |d|
    requires forall k :: 0 <= k < |s| + 1 ==> d'[at + k] == src[k]
    requires forall k :: 0 <= k < |d| && !(at <= k < at + |s| + 1) ==> d'[k] == d[k]
    ensures d' == d[..at] + s + [0] + d[at + |s| + 1..]
  {
    var r := d[..at] + s + [0] + d[at + |s| + 1..];
    assert forall k :: 0 <= k < |s| ==> s[k] == src[..|s|][k];
    forall k | 0 <= k < |d| ensures d'[k] == r[k] {
      if at <= k < at + |s| + 1 {
        assert d'[at + (k - at)] == src[k - at];
      }
    }
  }

  /** `memset`, and the terminating zero. */
  method FillBuffer(dest: array<Byte>, size: nat, c: Byte)
    requires size < dest.Length
    modifies dest
    ensures (forall k :: 0 <= k < size ==> dest[k] == c) && dest[size] == 0
  {
    var i := 0;
    while i < size
      invariant i <= size && forall k :: 0 <= k < i ==> dest[k] == c
    {
      dest[i] := c;
      i := i + 1;
    }
    dest[size] := 0;
  }

  /** `pad`. */
  method Pad(dest: array<Byte>, src: array<Byte>, size: nat, c: Byte, ghost s: Text)
    requires dest != src && Holds(src[..], s) && dest.Length >= size + 2 && dest.Length > |s| && c != 0
    modifies dest
    ensures Holds(dest[..], Padded(s, size, c))
  {
    hide Padded, Holds;
    var n := Strlen(src, s);
    HoldsFacts(src[..], s);
    if n >= size {
      ghost var before := dest[..];
      Strcpy(dest, 0, src, s);
      LongPadded(before, dest[..], s, size, c);
      return;
    }
    FillBuffer(dest, size, c);
    if src[0] != MINUS {
      PadPlain(dest, src, size, n, c, s);
    } else {
      PadSigned(dest, src, size, n, c, s);
    }
  }

  lemma HoldsFacts(a: Text, s: Text)
    requires Holds(a, s)
    ensures |s| < |a| && 0 !in s && (a[0] == MINUS <==> s != [] && s[0] == MINUS)
  {
    if s != [] {
      assert a[..|s|][0] == a[0];
    }
  }

  method PadPlain(dest: array<Byte>, src: array<Byte>, size: nat, n: nat, c: Byte, ghost s: Text)
    requires dest != src && Holds(src[..], s) && n == |s| < size < dest.Length - 1 && c != 0
             && (s == [] || s[0] != MINUS)
    requires forall k :: 0 <= k < size ==> dest[k] == c
    modifies dest
    ensures Holds(dest[..], Padded(s, size, c))
  {
    hide Padded, Holds;
    HoldsFacts(src[..], s);
    ghost var filled := dest[..];
    Strcpy(dest, size - n, src, s);
    PlainPadded(filled, dest[..], s, size, c);
  }

  method PadSigned(dest: array<Byte>, src: array<Byte>, size: nat, n: nat, c: Byte, ghost s: Text)
    requires dest != src && Holds(src[..], s) && n == |s| < size < dest.Length - 1 && c != 0 && s != [] && s[0] == MINUS
    requires forall k :: 0 <= k < size ==> dest[k] == c
    modifies dest
    ensures Holds(dest[..], Padded(s, size, c))
  {
    hide Padded, Holds;
    HoldsFacts(src[..], s);
    ghost var filled := dest[..];
    Strcpy(dest, size - n + 1, src, s);
    ghost var copied := dest[..];
    dest[size - n + 1] := c;
    dest[0] := MINUS;
    SignedPadded(filled, copied, dest[..], s, size, c);
  }

  lemma LongPadded(before: Text, d: Text, s: Text, size: nat, c: Byte)
    requires size <= |s| < |before| && 0 !in s && d == before[..0] + s + [0] + before[0 + |s| + 1..]
    ensures Holds(d, Padded(s, size, c))
  {
    assert d[..|s|] == s;
  }

  lemma PlainPadded(filled: Text, d: Text, s: Text, size: nat, c: Byte)
    requires |s| < size < |filled| - 1 && (forall k :: 0 <= k < size ==> filled[k] == c) && c != 0 && 0 !in s
    requires d == filled[..size - |s|] + s + [0] + filled[size - |s| + |s| + 1..] && (s == [] || s[0] != MINUS)
    ensures Holds(d, Padded(s, size, c))
  {
    assert filled[..size - |s|] == Fill(size - |s|, c);
    assert d[..size] == Fill(size - |s|, c) + s;
  }

  lemma SignedPadded(filled: Text, copied: Text, d: Text, s: Text, size: nat, c: Byte)
    requires 0 < |s| < size < |filled| - 1 && (forall k :: 0 <= k < size ==> filled[k] == c) && c != 0 && 0 !in s
             && s[0] == MINUS
    requires var at := size - |s| + 1;
             copied == filled[..at] + s + [0] + filled[at + |s| + 1..] && d == copied[at := c][0 := MINUS]
    ensures Holds(d, Padded(s, size, c))
  {
    var at := size - |s| + 1;
    var p := Padded(s, size, c);
    assert |p| == size + 1;
    forall k | 0 <= k < |p| ensures d[k] == p[k] {
      if k > at {
        assert copied[k] == s[k - at];
        assert p[k] == s[1..][k - at - 1];
      }
    }
    assert d[..|p|] == p;
    assert 0 !in p by {
      assert forall k :: 0 <= k < |s[1..]| ==> s[1..][k] == s[k + 1] && s[k + 1] in s;
    }
  }
}
