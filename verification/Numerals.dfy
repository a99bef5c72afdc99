/** Writing numbers as digits and reading them back: __pf_printnum of lib/libc/__printf.c and
    lib/libc/atoi.c. */
module Numerals {
  import opened Basics

  const NUMBER_BUF_SIZE := 12

  predicate IsBase(b: int) {
    b == 8 || b == 10 || b == 16
  }

  function DigitChar(d: int): char
    requires 0 <= d < 16
  {
    "0123456789abcdef"[d]
  }

  function Quot(n: nat, b: int): nat
    requires b >= 2
  {
    n / b
  }

  function Rem(n: nat, b: int): (d: nat)
    requires b >= 2
    ensures d < b
  {
    n % b
  }

  /** n in base b, most significant digit first; 0 is "0". */
  function Digits(n: nat, b: int): (s: string)
    requires 2 <= b <= 16
    ensures |s| > 0
    decreases n
  {
    if n < b then [DigitChar(n)] else Digits(n / b, b) + [DigitChar(n % b)]
  }

  /** The value of a character as a digit, from its code; 16 if it is none. */
  function CharValue(c: char): nat {
    if '0' <= c <= '9' then c as int - '0' as int else if 'a' <= c <= 'f' then 10 + (c as int - 'a' as int) else 16
  }

  /** Every character is a digit of base b. */
  predicate InBase(s: string, b: int) {
    forall k :: 0 <= k < |s| ==> CharValue(s[k]) < b
  }

  /** The value of s in base b. */
  function ValueIn(s: string, b: nat): nat {
    if s == "" then 0 else ValueIn(s[..|s| - 1], b) * b + CharValue(s[|s| - 1])
  }

  lemma CharOf(d: int)
    requires 0 <= d < 16
    ensures CharValue(DigitChar(d)) == d
  {
  }

  lemma Division(n: nat, b: int)
    requires b >= 2
    ensures n / b * b + n % b == n && (n >= b ==> n / b > 0)
  {
  }

  lemma NoDigits(b: nat)
    ensures ValueIn("", b) == 0 && InBase("", b)
  {
  }

  lemma OneDigitMore(s: string, c: char, b: nat)
    ensures ValueIn(s + [c], b) == ValueIn(s, b) * b + CharValue(c)
    ensures InBase(s, b) && CharValue(c) < b ==> InBase(s + [c], b)
    ensures s != "" ==> (s + [c])[0] == s[0]
  {
    assert (s + [c])[..|s + [c]| - 1] == s;
  }

  /** The digits of n in base b have the value n, with no zero in front but in "0" itself. */
  lemma {:induction false} DigitsMean(n: nat, b: int)
    requires 2 <= b <= 16
    ensures InBase(Digits(n, b), b) && ValueIn(Digits(n, b), b) == n
    ensures n > 0 ==> CharValue(Digits(n, b)[0]) > 0
    decreases n
  {
    hide DigitChar, CharValue, ValueIn, InBase;
    if n < b {
      CharOf(n);
      OneDigitMore("", DigitChar(n), b);
      NoDigits(b);
      assert "" + [DigitChar(n)] == Digits(n, b);
    } else {
      CharOf(n % b);
      Division(n, b);
      DigitsMean(n / b, b);
      OneDigitMore(Digits(n / b, b), DigitChar(n % b), b);
    }
  }

  function Pow8(k: nat): nat {
    if k == 0 then 1 else 8 * Pow8(k - 1)
  }

  lemma Pow8Of11()
    ensures Pow8(11) == 0x2_0000_0000
  {
    assert Pow8(4) == 4096;
    assert Pow8(8) == 0x100_0000;
  }

  /** The digits still to be written. */
  function ToGo(again: bool, n: nat, b: int): string
    requires IsBase(b)
  {
    if again then Digits(n, b) else ""
  }

  lemma FirstDigit(n: nat, b: int)
    requires IsBase(b)
    ensures Digits(n, b) == ToGo(true, n, b) + ""
  {
  }

  lemma LastDigit(n: nat, b: int, s: string)
    requires IsBase(b)
    ensures ToGo(false, n, b) + s == s
  {
  }

  lemma SmallNumber(n: nat, b: int)
    requires IsBase(b)
    ensures if n < b then Quot(n, b) == 0 && Rem(n, b) == n else Quot(n, b) > 0
  {
    if b == 8 {
    } else if b == 10 {
    } else {
    }
  }

  lemma DigitsSplit(n: nat, b: int)
    requires IsBase(b)
    ensures Digits(n, b) == ToGo(Quot(n, b) > 0, Quot(n, b), b) + [DigitChar(Rem(n, b))]
  {
    hide DigitChar;
    SmallNumber(n, b);
  }

  lemma DigitStep(n: nat, b: int, tail: string)
    requires IsBase(b)
    ensures ToGo(true, n, b) + tail == ToGo(Quot(n, b) > 0, Quot(n, b), b) + ([DigitChar(Rem(n, b))] + tail)
  {
    hide Digits, DigitChar, Quot, Rem;
    DigitsSplit(n, b);
  }

  lemma Shrink(n: nat, base: int, x: int)
    requires IsBase(base) && -1 <= x && n < Pow8(x + 1) && (n > 0 || x >= 0)
    ensures 0 <= x && 0 <= Quot(n, base) < Pow8(x)
  {
    assert n / base <= n / 8;
  }

  /** The loop of __pf_printnum: the digits go into a 12-byte buffer from its end, and never run
      past its start. */
  method NumberText(num: nat, base: int) returns (s: string)
    requires num < TWO32 && IsBase(base)
    ensures s == Digits(num, base) && InBase(s, base) && ValueIn(s, base) == num
    ensures s != "" && (num > 0 ==> CharValue(s[0]) > 0) && |s| <= 11
  {
    hide Digits, Pow8, DigitChar, Quot, Rem, ToGo, InBase, ValueIn, CharValue;
    var buf := new char[NUMBER_BUF_SIZE];
    var x := NUMBER_BUF_SIZE - 1;
    buf[x] := 0 as char;
    x := x - 1;
    var xnum, again := num, true;
    Pow8Of11();
    assert buf[x + 1..11] == "";
    FirstDigit(num, base);
    while again
      invariant -1 <= x <= 10 && 0 <= xnum < Pow8(x + 1) && (again <==> xnum > 0 || x == 10)
      invariant Digits(num, base) == ToGo(again, xnum, base) + buf[x + 1..11]
      decreases x
    {
      Shrink(xnum, base, x);
      ghost var tail := buf[x + 1..11];
      DigitStep(xnum, base, tail);
      var c := DigitChar(Rem(xnum, base));
      buf[x] := c;
      assert buf[x..11] == [c] + tail;
      x := x - 1;
      xnum := Quot(xnum, base);
      again := xnum > 0;
    }
    x := x + 1;
    s := buf[x..11];
    LastDigit(xnum, base, s);
    DigitsMean(num, base);
  }

  // ---- reading ----

  predicate IsDigit(c: char) {
    '0' <= c <= '9'
  }

  function DigitValue(c: char): int
    requires IsDigit(c)
  {
    c as int - '0' as int
  }

  /** The length of the digits at the start of s. */
  function DigitsAt(s: string): (n: nat)
    ensures n <= |s| && (forall k :: 0 <= k < n ==> IsDigit(s[k])) && (n < |s| ==> !IsDigit(s[n]))
  {
    if s == "" || !IsDigit(s[0]) then 0 else 1 + DigitsAt(s[1..])
  }

  /** The value of a string of decimal digits. */
  function Value(s: string): nat
    requires forall k :: 0 <= k < |s| ==> IsDigit(s[k])
  {
    if s == "" then 0 else Value(s[..|s| - 1]) * 10 + DigitValue(s[|s| - 1])
  }

  function Blanks(s: string): (n: nat)
    ensures n <= |s| && (n < |s| ==> s[n] != ' ' && s[n] != '\t') &&
      (forall k :: 0 <= k < n ==> s[k] == ' ' || s[k] == '\t')
  {
    if s == "" || (s[0] != ' ' && s[0] != '\t') then 0 else 1 + Blanks(s[1..])
  }

  /** A 32-bit pattern as a signed number. */
  function Signed(v: int): int
    requires 0 <= v < TWO32
  {
    if v < 0x8000_0000 then v else v - TWO32
  }

  function AfterBlanks(s: string): string {
    s[Blanks(s)..]
  }

  predicate Minus(t: string) {
    t != "" && t[0] == '-'
  }

  function AfterSign(t: string): string {
    if t != "" && (t[0] == '-' || t[0] == '+') then t[1..] else t
  }

  /** The digits at the start of u, in 32-bit arithmetic. */
  function Leading(u: string): (v: int)
    ensures 0 <= v < TWO32
  {
    Value(u[..DigitsAt(u)]) % TWO32
  }

  /** What atoi makes of s: blanks, a sign, digits; the rest is ignored. */
  function Parse(s: string): int {
    var t := AfterBlanks(s);
    var val := Leading(AfterSign(t));
    Signed(if Minus(t) then (TWO32 - val) % TWO32 else val)
  }

  predicate AllBlank(s: string) {
    forall k :: 0 <= k < |s| ==> s[k] == ' ' || s[k] == '\t'
  }

  lemma {:induction false} BlanksFirst(bs: string, t: string)
    requires AllBlank(bs) && (t == "" || (t[0] != ' ' && t[0] != '\t'))
    ensures AfterBlanks(bs + t) == t
  {
    if bs == "" {
      assert bs + t == t;
    } else {
      assert (bs + t)[1..] == bs[1..] + t;
      BlanksFirst(bs[1..], t);
      assert Blanks(bs + t) == 1 + Blanks(bs[1..] + t);
    }
  }

  lemma {:induction false} DigitsFirst(ds: string, tail: string)
    requires (forall k :: 0 <= k < |ds| ==> IsDigit(ds[k])) && (tail == "" || !IsDigit(tail[0]))
    ensures DigitsAt(ds + tail) == |ds|
  {
    if ds == "" {
      assert ds + tail == tail;
    } else {
      assert (ds + tail)[1..] == ds[1..] + tail;
      DigitsFirst(ds[1..], tail);
    }
  }

  lemma {:induction false} DecimalValue(ds: string)
    requires forall k :: 0 <= k < |ds| ==> IsDigit(ds[k])
    ensures Value(ds) == ValueIn(ds, 10)
  {
    if ds != "" {
      DecimalValue(ds[..|ds| - 1]);
    }
  }

  lemma LeadingDigits(ds: string, tail: string)
    requires (forall k :: 0 <= k < |ds| ==> IsDigit(ds[k])) && (tail == "" || !IsDigit(tail[0]))
    ensures Leading(ds + tail) == ValueIn(ds, 10) % TWO32
  {
    hide ValueIn, Value;
    DigitsFirst(ds, tail);
    assert (ds + tail)[..|ds|] == ds;
    DecimalValue(ds);
  }

  lemma SignFirst(sign: string, u: string)
    requires sign in {"", "+", "-"} && (sign == "" && u != "" ==> u[0] !in " \t+-")
    ensures var t := sign + u;
            && AfterSign(t) == u && (Minus(t) <==> sign == "-") && (t == "" || (t[0] != ' ' && t[0] != '\t'))
  {
    if sign == "" {
      assert sign + u == u;
    } else {
      assert (sign + u)[0] == sign[0] && (sign + u)[1..] == u;
    }
  }

  lemma NoSign(ds: string, tail: string)
    requires (forall k :: 0 <= k < |ds| ==> IsDigit(ds[k])) && (ds == "" && tail != "" ==> tail[0] !in " \t+-")
    ensures ds + tail != "" ==> (ds + tail)[0] !in " \t+-"
  {
    if ds != "" {
      assert (ds + tail)[0] == ds[0];
    } else {
      assert ds + tail == tail;
    }
  }

  /** atoi of blanks and tabs, a sign or none, digits or none, and anything that does not go on: the
      digits' value, or its negative, as a 32-bit number. */
  lemma AtoiMeans(bs: string, sign: string, ds: string, tail: string)
    requires AllBlank(bs) && sign in {"", "+", "-"} && (forall k :: 0 <= k < |ds| ==> IsDigit(ds[k]))
    requires tail == "" || !IsDigit(tail[0])
    requires sign == ds == "" && tail != "" ==> tail[0] !in " \t+-"
    ensures var v := ValueIn(ds, 10) % TWO32;
            Parse(bs + (sign + (ds + tail))) == Signed(if sign == "-" then (TWO32 - v) % TWO32 else v)
  {
    hide AfterBlanks, Signed, ValueIn, Leading, AfterSign, Minus, AllBlank;
    var t := sign + (ds + tail);
    if sign == "" {
      NoSign(ds, tail);
    }
    SignFirst(sign, ds + tail);
    BlanksFirst(bs, t);
    LeadingDigits(ds, tail);
  }

  method SkipSpaces(s: string) returns (i: nat)
    ensures i <= |s| && s[i..] == AfterBlanks(s)
  {
    i := 0;
    while i < |s| && (s[i] == ' ' || s[i] == '\t')
      invariant 0 <= i <= |s| && Blanks(s) == i + Blanks(s[i..])
    {
      assert s[i..][1..] == s[i + 1..];
      i := i + 1;
    }
  }

  lemma AddMultiple(a: int, k: int)
    ensures (a + k * TWO32) % TWO32 == a % TWO32
  {
  }

  lemma WrapStep(v: nat, w: int, d: int)
    requires w == v % TWO32
    ensures (w * 10 + d) % TWO32 == (v * 10 + d) % TWO32
  {
    var q := v / TWO32;
    assert v * 10 + d == (w * 10 + d) + 10 * q * TWO32;
    AddMultiple(w * 10 + d, 10 * q);
  }

  method DigitLoop(s: string, from: nat) returns (val: int)
    requires from <= |s|
    ensures val == Leading(s[from..])
  {
    ghost var u := s[from..];
    val := 0;
    var n := 0;
    while from + n < |s| && IsDigit(s[from + n])
      invariant 0 <= n <= DigitsAt(u) && val == Value(u[..n]) % TWO32
      decreases |u| - n
    {
      assert u[n] == s[from + n];
      assert u[..n + 1][..n] == u[..n];
      WrapStep(Value(u[..n]), val, DigitValue(s[from + n]));
      val := (val * 10 + DigitValue(s[from + n])) % TWO32;
      n := n + 1;
    }
    assert n == DigitsAt(u);
  }

  /** atoi */
  method Atoi(s: string) returns (r: int)
    ensures r == Parse(s)
  {
    hide AfterBlanks, Leading;
    var i := SkipSpaces(s);
    ghost var t := AfterBlanks(s);
    var neg := false;
    if i < |s| && s[i] == '-' {
      neg := true;
      i := i + 1;
    } else if i < |s| && s[i] == '+' {
      i := i + 1;
    }
    assert AfterSign(t) == s[i..] && Minus(t) == neg;
    var val := DigitLoop(s, i);
    var v := if neg then (TWO32 - val) % TWO32 else val;
    r := if v < 0x8000_0000 then v else v - TWO32;
  }
}
