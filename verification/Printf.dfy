/** printf to a string: lib/libc/__printf.c and lib/libc/snprintf.c. */
module Printf {
  import opened Basics
  import opened Numerals

  /** An argument: an integer, a string (or a null pointer), or a character. */
  datatype Arg = Num(n: int) | Str(s: string) | Null | Chr(c: char)

  /** The format fields of a PF. */
  datatype Fmt = Fmt(inPct: bool, isLong: bool, spacing: int, left: bool, fill: char, alt: bool)

  const FRESH: Fmt := Fmt(false, false, 0, false, ' ', false)

  // ---- what is printed ----

  function Rep(c: char, n: int): (s: string)
    ensures |s| == if n > 0 then n else 0
  {
    if n <= 0 then "" else Rep(c, n - 1) + [c]
  }

  predicate IsModifier(c: char) {
    c in "#-ql0123456789"
  }

  /** __pf_modifier */
  function Modify(f: Fmt, c: char): Fmt
    requires IsModifier(c)
  {
    if c == '#' then f.(alt := true)
    else if c == '-' then f.(left := true)
    else if c == 'l' || c == 'q' then f.(isLong := true)
    else if c == '0' then (if f.spacing > 0 then f.(spacing := f.spacing * 10) else f.(fill := '0'))
    else f.(spacing := f.spacing * 10 + DigitValue(c))
  }

  /** How much padding text of length len needs. */
  function Pad(f: Fmt, len: int): int {
    if f.spacing > len then f.spacing - len else 0
  }

  /** __pf_printstuff: zeros go after the prefix, other padding before it, or all of it at the end. */
  function Padded(f: Fmt, prefix: string, stuff: string): string {
    var spc := Pad(f, |prefix| + |stuff|);
    (if !f.left && f.fill != '0' then Rep(f.fill, spc) else "") + prefix
    + (if !f.left && f.fill == '0' then Rep(f.fill, spc) else "") + stuff
    + (if f.left then Rep(f.fill, spc) else "")
  }

  function BaseOf(c: char): int {
    if c == 'd' || c == 'u' then 10 else if c == 'o' then 8 else 16
  }

  /** The sign and base prefix of a number. */
  function Prefix(f: Fmt, c: char, n: int): string {
    (if c == 'd' && n < 0 then "-" else "")
    + (if (f.alt || c == 'p') && BaseOf(c) == 16 then "0x" else if f.alt && BaseOf(c) == 8 then "0" else "")
  }

  function Magnitude(c: char, n: int): nat {
    if c == 'd' && n < 0 then -n % TWO32 else n % TWO32
  }

  /** The next argument, read as a number, a string or a character. */
  function IntArg(ap: seq<Arg>): int {
    if ap != [] && ap[0].Num? then ap[0].n else 0
  }

  function StrArg(ap: seq<Arg>): string {
    if ap != [] && ap[0].Str? then ap[0].s else "(null)"
  }

  function ChrArg(ap: seq<Arg>): char {
    if ap != [] && ap[0].Chr? then ap[0].c else 0 as char
  }

  function Rest(ap: seq<Arg>): seq<Arg> {
    if ap == [] then [] else ap[1..]
  }

  predicate TakesArg(c: char) {
    c in "doupxsc"
  }

  /** The text of a finished %-field. */
  function Field(f: Fmt, c: char, ap: seq<Arg>): string {
    if c in "doupx" then Padded(f, Prefix(f, c, IntArg(ap)), Digits(Magnitude(c, IntArg(ap)), BaseOf(c)))
    else if c == 's' then Padded(f, "", StrArg(ap))
    else if c == 'c' then Padded(f, "", if ChrArg(ap) == 0 as char then "" else [ChrArg(ap)])
    else Padded(f, "", [c])
  }

  /** What one character of the format prints, and the state and arguments after it. */
  function Out(f: Fmt, c: char, ap: seq<Arg>): string {
    if !f.inPct && c != '%' then [c] else if !f.inPct || IsModifier(c) then "" else Field(f, c, ap)
  }

  function NextFmt(f: Fmt, c: char): Fmt {
    if !f.inPct then f.(inPct := c == '%') else if IsModifier(c) then Modify(f, c) else FRESH
  }

  function NextArgs(f: Fmt, c: char, ap: seq<Arg>): seq<Arg> {
    if f.inPct && TakesArg(c) then Rest(ap) else ap
  }

  /** The whole output for a format. */
  function Render(f: Fmt, fmt: string, ap: seq<Arg>): string
    decreases |fmt|
  {
    if fmt == "" then "" else Out(f, fmt[0], ap) + Render(NextFmt(f, fmt[0]), fmt[1..], NextArgs(f, fmt[0], ap))
  }

  // ---- the printer ----

  lemma PrefixIs(f: Fmt, c: char, n: int)
    requires c in "doupx"
    ensures var base := BaseOf(c);
            (if c == 'd' && n < 0 then "-" else "")
            + (if (f.alt || c == 'p') && base == 16 then "0x" else if (f.alt || c == 'p') && base == 8 then "0" else "")
            == Prefix(f, c, n)
  {
  }

  lemma Assoc(s: string, a: string, p: string, q: string, b: string, t: string, c: string)
    ensures s + a + p + q + b + t + c == s + (a + (p + q) + b + t + c)
  {
  }

  lemma Join(s: string, f: Fmt, prefix: string, prefix2: string, stuff: string)
    ensures var spc := Pad(f, |prefix| + |prefix2| + |stuff|);
            s + (if spc > 0 && !f.left && f.fill != '0' then Rep(f.fill, spc) else "") + prefix + prefix2
              + (if spc > 0 && !f.left && f.fill == '0' then Rep(f.fill, spc) else "") + stuff
              + (if spc > 0 && f.left then Rep(f.fill, spc) else "")
            == s + Padded(f, prefix + prefix2, stuff)
  {
    var spc := Pad(f, |prefix| + |prefix2| + |stuff|);
    var a := if !f.left && f.fill != '0' then Rep(f.fill, spc) else "";
    var b := if !f.left && f.fill == '0' then Rep(f.fill, spc) else "";
    var c := if f.left then Rep(f.fill, spc) else "";
    assert Padded(f, prefix + prefix2, stuff) == a + (prefix + prefix2) + b + stuff + c;
    Assoc(s, a, prefix, prefix2, b, stuff, c);
  }

  class Printer {
    const buf: array<char>
    const buflen: int
    var bufpos: int
    var charcount: int
    var f: Fmt
    var ap: seq<Arg>
    ghost var sent: string

    /** The buffer holds as much of the text as fits, and all of it is counted. */
    ghost predicate Valid()
      reads this, buf
    {
      && 0 <= bufpos <= buflen <= buf.Length && bufpos == (if |sent| < buflen then |sent| else buflen)
      && buf[..bufpos] == sent[..bufpos] && charcount == |sent|
    }

    constructor (buf: array<char>, len: int, args: seq<Arg>)
      requires 0 <= len <= buf.Length
      ensures Valid() && this.buf == buf && buflen == (if len == 0 then 0 else len - 1) && sent == "" &&
        f == FRESH && ap == args
    {
      this.buf := buf;
      buflen := if len == 0 then 0 else len - 1;
      bufpos, charcount, f, ap, sent := 0, 0, FRESH, args, "";
    }

    /** __pf_print with __snprintf_send */
    method Print(txt: string)
      requires Valid()
      modifies this`bufpos, this`charcount, this`sent, buf
      ensures Valid() && sent == old(sent) + txt
      ensures forall k :: buflen <= k < buf.Length ==> buf[k] == old(buf[k])
    {
      for i := 0 to |txt|
        invariant 0 <= bufpos <= buflen && sent == old(sent) + txt[..i] && charcount == old(charcount)
        invariant bufpos == if |sent| < buflen then |sent| else buflen
        invariant buf[..bufpos] == sent[..bufpos]
        invariant forall k :: buflen <= k < buf.Length ==> buf[k] == old(buf[k])
      {
        assert txt[..i + 1] == txt[..i] + [txt[i]];
        if bufpos < buflen {
          buf[bufpos] := txt[i];
          bufpos := bufpos + 1;
        }
        sent := sent + [txt[i]];
      }
      assert txt[..|txt|] == txt;
      charcount := charcount + |txt|;
    }

    /** __pf_fill */
    method Fill(spc: int)
      requires Valid()
      modifies this`bufpos, this`charcount, this`sent, buf
      ensures Valid() && sent == old(sent) + Rep(f.fill, spc)
      ensures forall k :: buflen <= k < buf.Length ==> buf[k] == old(buf[k])
    {
      var i := 0;
      while i < spc
        invariant 0 <= i && (i <= spc || i == 0) && Valid() && sent == old(sent) + Rep(f.fill, i)
        invariant forall k :: buflen <= k < buf.Length ==> buf[k] == old(buf[k])
      {
        ghost var was := sent;
        Print([f.fill]);
        assert was + [f.fill] == old(sent) + (Rep(f.fill, i) + [f.fill]);
        i := i + 1;
      }
    }

    /** __pf_printstuff */
    method PrintStuff(prefix: string, prefix2: string, stuff: string)
      requires Valid()
      modifies this`bufpos, this`charcount, this`sent, buf
      ensures Valid() && sent == old(sent) + Padded(f, prefix + prefix2, stuff)
      ensures forall k :: buflen <= k < buf.Length ==> buf[k] == old(buf[k])
    {
      hide Padded, Rep;
      ghost var s0 := sent;
      var len := |prefix| + |prefix2| + |stuff|;
      var spc := if f.spacing > len then f.spacing - len else 0;
      var a, b, c := spc > 0 && !f.left && f.fill != '0', spc > 0 && !f.left && f.fill == '0', spc > 0 && f.left;
      FillIf(a, spc);
      Print(prefix);
      Print(prefix2);
      FillIf(b, spc);
      Print(stuff);
      FillIf(c, spc);
      Join(s0, f, prefix, prefix2, stuff);
    }

    /** Padding, if there is to be any here. */
    method FillIf(yes: bool, spc: int)
      requires Valid()
      modifies this`bufpos, this`charcount, this`sent, buf
      ensures Valid() && sent == old(sent) + if yes then Rep(f.fill, spc) else ""
      ensures forall k :: buflen <= k < buf.Length ==> buf[k] == old(buf[k])
    {
      if yes {
        Fill(spc);
      } else {
        assert sent + "" == sent;
      }
    }

    /** The integer formats: __pf_getnum, __pf_setbase and __pf_printnum. */
    method SendNum(c: char)
      requires Valid() && c in "doupx"
      modifies this`bufpos, this`charcount, this`sent, this`ap, buf
      ensures Valid() && sent == old(sent) + Field(f, c, old(ap)) && ap == Rest(old(ap))
      ensures forall k :: buflen <= k < buf.Length ==> buf[k] == old(buf[k])
    {
      hide Padded, Digits, Prefix;
      var n := IntArg(ap);
      ap := Rest(ap);
      var num := if c == 'd' && n < 0 then -n % TWO32 else n % TWO32;
      var base := if c == 'd' || c == 'u' then 10 else if c == 'o' then 8 else 16;
      var digits := NumberText(num, base);
      var bprefix := if (f.alt || c == 'p') && base == 16 then "0x" else if (f.alt || c == 'p') && base == 8 then "0"
        else "";
      var sprefix := if c == 'd' && n < 0 then "-" else "";
      assert sprefix + bprefix == Prefix(f, c, n) by { PrefixIs(f, c, n); }
      PrintStuff(sprefix, bprefix, digits);
    }

    /** A string or a character, padded. */
    method PrintText(x: string)
      requires Valid()
      modifies this`bufpos, this`charcount, this`sent, buf
      ensures Valid() && sent == old(sent) + Padded(f, "", x)
      ensures forall k :: buflen <= k < buf.Length ==> buf[k] == old(buf[k])
    {
      hide Padded;
      assert "" + "" == "";
      PrintStuff("", "", x);
    }

    /** __pf_send */
    method Send(c: char)
      requires Valid() && c != 0 as char
      modifies this`bufpos, this`charcount, this`sent, this`ap, this`f, buf
      ensures Valid() && sent == old(sent) + Out(old(f), c, old(ap)) && f == NextFmt(old(f), c) &&
        ap == NextArgs(old(f), c, old(ap))
      ensures forall k :: buflen <= k < buf.Length ==> buf[k] == old(buf[k])
    {
      hide Padded, Digits, Prefix, Modify;
      if !f.inPct && c != '%' {
        Print([c]);
      } else if !f.inPct {
        f := f.(inPct := true);
        assert sent + "" == sent;
      } else if c in "#-ql0123456789" {
        f := Modify(f, c);
        assert sent + "" == sent;
      } else if c in "doupx" {
        SendNum(c);
        f := FRESH;
      } else if c == 's' {
        var str := StrArg(ap);
        ap := Rest(ap);
        PrintText(str);
        f := FRESH;
      } else {
        var x := [c];
        if c == 'c' {
          x := if ChrArg(ap) == 0 as char then "" else [ChrArg(ap)];
          ap := Rest(ap);
        }
        PrintText(x);
        f := FRESH;
      }
    }

    /** __vprintf */
    method Vprintf(fmt: string) returns (chars: int)
      requires Valid() && sent == "" && f == FRESH && forall k :: 0 <= k < |fmt| ==> fmt[k] != 0 as char
      modifies this`bufpos, this`charcount, this`sent, this`ap, this`f, buf
      ensures Valid() && sent == Render(FRESH, fmt, old(ap)) && chars == |sent|
      ensures forall k :: buflen <= k < buf.Length ==> buf[k] == old(buf[k])
    {
      hide Out, NextFmt, NextArgs;
      ghost var text := Render(FRESH, fmt, ap);
      assert fmt[0..] == fmt;
      for i := 0 to |fmt|
        invariant Valid() && sent + Render(f, fmt[i..], ap) == text
        invariant forall k :: buflen <= k < buf.Length ==> buf[k] == old(buf[k])
      {
        ghost var s0, f0, a0 := sent, f, ap;
        assert fmt[i..][1..] == fmt[i + 1..];
        Send(fmt[i]);
        assert s0 + (Out(f0, fmt[i], a0) + Render(f, fmt[i + 1..], ap)) == sent + Render(f, fmt[i + 1..], ap);
      }
      assert sent + "" == sent;
      chars := charcount;
    }
  }

  /** vsnprintf: the buffer gets as much of the text as fits before a NUL; the full length is
      returned. */
  method Vsnprintf(buf: array<char>, len: int, fmt: string, args: seq<Arg>) returns (chars: int)
    requires 0 <= len <= buf.Length && forall k :: 0 <= k < |fmt| ==> fmt[k] != 0 as char
    modifies buf
    ensures var text := Render(FRESH, fmt, args);
            && chars == |text|
            && (len > 0 ==>
                  var n := if |text| < len then |text| else len - 1;
                  buf[..n] == text[..n] && buf[n] == 0 as char)
            && (forall k :: len <= k < buf.Length ==> buf[k] == old(buf[k]))
  {
    var snp := new Printer(buf, len, args);
    chars := snp.Vprintf(fmt);
    if len > 0 {
      buf[snp.bufpos] := 0 as char;
    }
  }

  // ---- printing and reading back ----

  /** %d with a width, left alignment and zero fill as wanted. */
  function Format(left: bool, zero: bool, width: nat): string {
    "%" + (if left then "-" else "") + (if zero then "0" else "") + (if width > 0 then Digits(width, 10) else "") + "d"
  }

  predicate AllModifiers(s: string) {
    forall k :: 0 <= k < |s| ==> IsModifier(s[k])
  }

  /** The state after modifiers. */
  function After(f: Fmt, s: string): Fmt
    requires AllModifiers(s)
  {
    if s == "" then f else Modify(After(f, s[..|s| - 1]), s[|s| - 1])
  }

  lemma OneModifier(f: Fmt, c: char, t: string, ap: seq<Arg>)
    requires f.inPct && IsModifier(c)
    ensures Modify(f, c).inPct && Render(f, [c] + t, ap) == Render(Modify(f, c), t, ap)
  {
    assert ([c] + t)[1..] == t && !TakesArg(c);
    assert Out(f, c, ap) == "";
  }

  lemma {:induction false} Modifiers(f: Fmt, s: string, t: string, ap: seq<Arg>)
    requires f.inPct && forall k :: 0 <= k < |s| ==> IsModifier(s[k])
    ensures After(f, s).inPct && Render(f, s + t, ap) == Render(After(f, s), t, ap)
    decreases |s|
  {
    if s == "" {
      assert s + t == t;
    } else {
      var n := |s| - 1;
      assert s + t == s[..n] + ([s[n]] + t);
      Modifiers(f, s[..n], [s[n]] + t, ap);
      OneModifier(After(f, s[..n]), s[n], t, ap);
    }
  }

  lemma DigitModifier(f: Fmt, d: nat)
    requires d < 10 && f.spacing >= 0 && (f.spacing > 0 || d > 0)
    ensures IsModifier(DigitChar(d)) && Modify(f, DigitChar(d)) == f.(spacing := f.spacing * 10 + d)
  {
  }

  /** Digits are modifiers, and a number without a leading zero sets the width to that number. */
  lemma {:induction false} WidthDigits(f: Fmt, w: nat)
    requires f.spacing == 0 && w > 0
    ensures forall k :: 0 <= k < |Digits(w, 10)| ==> IsModifier(Digits(w, 10)[k])
    ensures After(f, Digits(w, 10)) == f.(spacing := w)
    decreases w
  {
    var s := Digits(w, 10);
    if w < 10 {
      assert s[..0] == "";
      DigitModifier(f, w);
    } else {
      WidthDigits(f, w / 10);
      assert s[..|s| - 1] == Digits(w / 10, 10);
      DigitModifier(f.(spacing := w / 10), w % 10);
    }
  }

  /** What %d prints. */
  function Text(left: bool, zero: bool, width: nat, n: int): string {
    Field(Fmt(true, false, width, left, if zero then '0' else ' ', false), 'd', [Num(n)])
  }

  lemma Percent(s: string, ap: seq<Arg>)
    ensures Render(FRESH, "%" + s, ap) == Render(FRESH.(inPct := true), s, ap)
  {
    assert ("%" + s)[1..] == s;
    assert Out(FRESH, '%', ap) == "";
  }

  function WidthText(w: nat): string {
    if w > 0 then Digits(w, 10) else ""
  }

  lemma Width(f: Fmt, w: nat)
    requires f.spacing == 0
    ensures AllModifiers(WidthText(w)) && After(f, WidthText(w)) == f.(spacing := w)
  {
    hide Digits, Modify;
    if w > 0 {
      WidthDigits(f, w);
    }
  }

  /** The flags, width and size of a field. */
  datatype Spec = Spec(alt: bool, left: bool, zero: bool, width: nat, long: bool)

  function Mark(on: bool, c: char): string {
    if on then [c] else ""
  }

  /** A spec as it is written, and as the printer holds it. */
  function SpecText(p: Spec): string {
    Mark(p.alt, '#') + Mark(p.left, '-') + Mark(p.zero, '0') + WidthText(p.width) + Mark(p.long, 'l')
  }

  function FmtOf(p: Spec): Fmt {
    Fmt(true, p.long, p.width, p.left, if p.zero then '0' else ' ', p.alt)
  }

  lemma {:induction false} AfterJoin(f: Fmt, a: string, b: string)
    requires AllModifiers(a) && AllModifiers(b)
    ensures AllModifiers(a + b) && After(f, a + b) == After(After(f, a), b)
    decreases |b|
  {
    hide Modify;
    if b == "" {
      assert a + b == a;
    } else {
      var n := |b| - 1;
      assert (a + b)[..|a + b| - 1] == a + b[..n];
      AfterJoin(f, a, b[..n]);
    }
  }

  lemma OneMark(f: Fmt, on: bool, c: char)
    requires c in "#-l" || (c == '0' && f.spacing == 0)
    ensures AllModifiers(Mark(on, c))
    ensures After(f, Mark(on, c)) ==
      if !on then f else if c == '#' then f.(alt := true) else if c == '-' then f.(left := true)
      else if c == 'l' then f.(isLong := true) else f.(fill := '0')
  {
    if on {
      assert [c][..0] == "";
    }
  }

  lemma SpecMeans(p: Spec)
    ensures AllModifiers(SpecText(p)) && After(FRESH.(inPct := true), SpecText(p)) == FmtOf(p)
  {
    hide Digits, Modify, After, Mark, WidthText;
    var f0 := FRESH.(inPct := true);
    var m1, m2, m3, m4, m5 := Mark(p.alt, '#'), Mark(p.left, '-'), Mark(p.zero, '0'), WidthText(p.width),
      Mark(p.long, 'l');
    OneMark(f0, p.alt, '#');
    var f1 := f0.(alt := p.alt);
    OneMark(f1, p.left, '-');
    var f2 := f1.(left := p.left);
    OneMark(f2, p.zero, '0');
    var f3 := f2.(fill := if p.zero then '0' else ' ');
    Width(f3, p.width);
    var f4 := f3.(spacing := p.width);
    OneMark(f4, p.long, 'l');
    AfterJoin(f0, m1, m2);
    AfterJoin(f0, m1 + m2, m3);
    AfterJoin(f0, m1 + m2 + m3, m4);
    AfterJoin(f0, m1 + m2 + m3 + m4, m5);
  }

  /** A field in a format: its text, then what follows, with one argument fewer if it takes one. */
  lemma FieldOf(p: Spec, c: char, rest: string, ap: seq<Arg>)
    requires !IsModifier(c)
    ensures Render(FRESH, "%" + (SpecText(p) + ([c] + rest)), ap) ==
      Field(FmtOf(p), c, ap) + Render(FRESH, rest, if TakesArg(c) then Rest(ap) else ap)
  {
    hide Field, Modify, Digits, After, SpecText;
    Percent(SpecText(p) + ([c] + rest), ap);
    SpecMeans(p);
    Modifiers(FRESH.(inPct := true), SpecText(p), [c] + rest, ap);
    assert ([c] + rest)[0] == c && ([c] + rest)[1..] == rest;
  }

  lemma FormatText(left: bool, zero: bool, width: nat, n: int)
    ensures Render(FRESH, Format(left, zero, width), [Num(n)]) == Text(left, zero, width, n)
  {
    hide Field, Digits;
    var p := Spec(false, left, zero, width, false);
    assert Format(left, zero, width) == "%" + (SpecText(p) + (['d'] + ""));
    FieldOf(p, 'd', "", [Num(n)]);
    assert Text(left, zero, width, n) + "" == Text(left, zero, width, n);
  }

  lemma {:induction false} RepAll(c: char, n: nat)
    ensures forall k :: 0 <= k < n ==> Rep(c, n)[k] == c
  {
    if n > 0 {
      RepAll(c, n - 1);
    }
  }

  /** atoi of blanks, a minus sign or none, digits, and something else. */
  lemma ParseShape(k: nat, neg: bool, ds: string, tail: string)
    requires ds != "" && (forall j :: 0 <= j < |ds| ==> IsDigit(ds[j])) && (tail == "" || !IsDigit(tail[0]))
    ensures var val := Value(ds) % TWO32;
            Parse(Rep(' ', k) + ((if neg then "-" else "") + (ds + tail))) ==
            Signed(if neg then (TWO32 - val) % TWO32 else val)
  {
    hide Parse, Rep, Signed, Value, ValueIn;
    RepAll(' ', k);
    AtoiMeans(Rep(' ', k), if neg then "-" else "", ds, tail);
    DecimalValue(ds);
  }

  lemma DigitCharValue(d: nat)
    requires d < 10
    ensures IsDigit(DigitChar(d)) && DigitValue(DigitChar(d)) == d
  {
  }

  lemma {:induction false} ValueDigits(n: nat)
    ensures (forall j :: 0 <= j < |Digits(n, 10)| ==> IsDigit(Digits(n, 10)[j])) && Value(Digits(n, 10)) == n
    decreases n
  {
    var s := Digits(n, 10);
    DigitCharValue(n % 10);
    if n < 10 {
      assert s[..0] == "";
    } else {
      ValueDigits(n / 10);
      assert s[..|s| - 1] == Digits(n / 10, 10);
    }
  }

  lemma {:induction false} ValueZeros(z: nat, ds: string)
    requires forall j :: 0 <= j < |ds| ==> IsDigit(ds[j])
    ensures forall j :: 0 <= j < |Rep('0', z) + ds| ==> IsDigit((Rep('0', z) + ds)[j])
    ensures Value(Rep('0', z) + ds) == Value(ds)
    decreases |ds|, z
  {
    RepAll('0', z);
    var s := Rep('0', z) + ds;
    if ds != "" {
      assert s[..|s| - 1] == Rep('0', z) + ds[..|ds| - 1];
      ValueZeros(z, ds[..|ds| - 1]);
    } else if z > 0 {
      assert s[..|s| - 1] == Rep('0', z - 1) + "";
      ValueZeros(z - 1, "");
    } else {
      assert s == "";
    }
  }

  function Pow10(k: nat): nat {
    if k == 0 then 1 else 10 * Pow10(k - 1)
  }

  lemma {:induction false} ValueShift(ds: string, k: nat)
    requires forall j :: 0 <= j < |ds| ==> IsDigit(ds[j])
    ensures forall j :: 0 <= j < |ds + Rep('0', k)| ==> IsDigit((ds + Rep('0', k))[j])
    ensures Value(ds + Rep('0', k)) == Value(ds) * Pow10(k)
  {
    RepAll('0', k);
    var s := ds + Rep('0', k);
    if k == 0 {
      assert s == ds;
    } else {
      assert s[..|s| - 1] == ds + Rep('0', k - 1);
      ValueShift(ds, k - 1);
    }
  }

  lemma SignBack(n: int)
    requires -0x8000_0000 <= n < 0x8000_0000
    ensures var m := Magnitude('d', n);
            m == (if n < 0 then -n else n) && Signed(if n < 0 then (TWO32 - m % TWO32) % TWO32 else m % TWO32) == n
  {
  }

  lemma PaddedCases(f: Fmt, prefix: string, stuff: string, k: int)
    requires k == Pad(f, |prefix| + |stuff|)
    ensures f.left ==> Padded(f, prefix, stuff) == "" + (prefix + (stuff + Rep(f.fill, k)))
    ensures !f.left && f.fill == '0' ==> Padded(f, prefix, stuff) == "" + (prefix + ((Rep(f.fill, k) + stuff) + ""))
    ensures !f.left && f.fill != '0' ==> Padded(f, prefix, stuff) == Rep(f.fill, k) + (prefix + (stuff + ""))
  {
    hide Rep;
  }

  lemma NoBase(f: Fmt, n: int)
    requires !f.alt
    ensures Prefix(f, 'd', n) == if n < 0 then "-" else ""
  {
  }

  lemma Empty()
    ensures Rep(' ', 0) == ""
  {
  }

  /** The text of a %d field: blanks, sign, digits, blanks. */
  lemma TextShape(left: bool, zero: bool, width: nat, n: int, k: int)
    requires k == Pad(Fmt(true, false, width, left, if zero then '0' else ' ', false), |if n < 0 then "-"
      else ""| + |Digits(Magnitude('d', n), 10)|)
    ensures var sign, ds := if n < 0 then "-" else "", Digits(Magnitude('d', n), 10);
            Text(left, zero, width, n) ==
            if left then Rep(' ', 0) + (sign + (ds + Rep(if zero then '0' else ' ', k)))
            else if zero then Rep(' ', 0) + (sign + ((Rep('0', k) + ds) + ""))
            else Rep(' ', k) + (sign + (ds + ""))
  {
    hide Digits, Rep, Magnitude, Padded;
    var f := Fmt(true, false, width, left, if zero then '0' else ' ', false);
    NoBase(f, n);
    Empty();
    var sign, ds := if n < 0 then "-" else "", Digits(Magnitude('d', n), 10);
    PaddedCases(f, sign, ds, k);
    hide Pad;
    assert Text(left, zero, width, n) == Padded(f, sign, ds);
  }

  lemma RightBlanks(k: nat)
    ensures Rep(' ', k) == "" || !IsDigit(Rep(' ', k)[0])
  {
    RepAll(' ', k);
  }

  /** Every int printed by %d, with any width, fill and alignment but zeros on the right, is read
      back by atoi. */
  lemma PrintThenParse(left: bool, zero: bool, width: nat, n: int)
    requires -0x8000_0000 <= n < 0x8000_0000 && !(left && zero)
    ensures Parse(Render(FRESH, Format(left, zero, width), [Num(n)])) == n
  {
    hide Render, Parse, Digits, Value, Signed, Rep, Magnitude, Text;
    FormatText(left, zero, width, n);
    var ds := Digits(Magnitude('d', n), 10);
    var sign := if n < 0 then "-" else "";
    var k := Pad(Fmt(true, false, width, left, if zero then '0' else ' ', false), |sign| + |ds|);
    TextShape(left, zero, width, n, k);
    ValueDigits(Magnitude('d', n));
    SignBack(n);
    if left {
      RightBlanks(k);
      ParseShape(0, n < 0, ds, Rep(' ', k));
    } else if zero {
      ValueZeros(k, ds);
      ParseShape(0, n < 0, Rep('0', k) + ds, "");
    } else {
      ParseShape(k, n < 0, ds, "");
    }
  }

  // ---- every field ----

  /** n times the character c. */
  predicate Only(s: string, c: char, n: int) {
    |s| == n && forall k :: 0 <= k < n ==> s[k] == c
  }

  lemma RepOnly(c: char, n: int)
    ensures Only(Rep(c, n), c, if n > 0 then n else 0)
  {
    if n > 0 {
      RepAll(c, n);
    }
  }

  /** Text of a field: made up to the width with blanks in front, zeros after the prefix, or the fill at
      the end. */
  lemma FieldShape(p: Spec, prefix: string, stuff: string) returns (a: string, z: string, e: string)
    ensures Padded(FmtOf(p), prefix, stuff) == a + prefix + z + stuff + e
    ensures var len := |prefix| + |stuff|;
            var spc := if p.width > len then p.width - len else 0;
            && Only(a, ' ', if p.left || p.zero then 0 else spc)
            && Only(z, '0', if !p.left && p.zero then spc else 0)
            && Only(e, if p.zero then '0' else ' ', if p.left then spc else 0)
  {
    hide Rep;
    var f, spc := FmtOf(p), Pad(FmtOf(p), |prefix| + |stuff|);
    RepOnly(f.fill, spc);
    a := if !f.left && f.fill != '0' then Rep(f.fill, spc) else "";
    z := if !f.left && f.fill == '0' then Rep(f.fill, spc) else "";
    e := if f.left then Rep(f.fill, spc) else "";
  }

  function BaseFor(c: char): int {
    match c
    case 'o' => 8
    case 'x' => 16
    case 'p' => 16
    case _ => 10
  }

  /** %d, %u, %o, %x and %p, with any flags and width, anywhere in a format: the value of the argument
      as a 32-bit number, or its distance from zero after a minus sign for a negative one in %d, in
      digits of the base without needless zeros, after 0x for %p and %#x and 0 for %#o. */
  lemma NumberField(p: Spec, c: char, n: int, rest: string, ap: seq<Arg>)
    returns (a: string, prefix: string, z: string, ds: string, e: string)
    requires c in "duoxp"
    ensures Render(FRESH, "%" + (SpecText(p) + ([c] + rest)), [Num(n)] + ap) ==
      (a + prefix + z + ds + e) + Render(FRESH, rest, ap)
    ensures ds != "" && InBase(ds, BaseFor(c)) && (ValueIn(ds, BaseFor(c)) > 0 ==> ds[0] != '0')
    ensures ValueIn(ds, BaseFor(c)) == (if c == 'd' && n < 0 then -n else n) % TWO32
    ensures prefix == (if c == 'd' && n < 0 then "-" else "")
                    + (if c == 'p' || (c == 'x' && p.alt) then "0x" else if c == 'o' && p.alt then "0" else "")
    ensures var len := |prefix| + |ds|;
            var spc := if p.width > len then p.width - len else 0;
            && Only(a, ' ', if p.left || p.zero then 0 else spc)
            && Only(z, '0', if !p.left && p.zero then spc else 0)
            && Only(e, if p.zero then '0' else ' ', if p.left then spc else 0)
  {
    hide Digits, Padded, ValueIn, InBase, Render, SpecText;
    FieldOf(p, c, rest, [Num(n)] + ap);
    assert Rest([Num(n)] + ap) == ap && IntArg([Num(n)] + ap) == n;
    prefix, ds := Prefix(FmtOf(p), c, n), Digits(Magnitude(c, n), BaseOf(c));
    DigitsMean(Magnitude(c, n), BaseOf(c));
    a, z, e := FieldShape(p, prefix, ds);
  }

  /** %s and %c, and any other character after the percent sign, which stands for itself. */
  lemma TextField(p: Spec, c: char, arg: Arg, rest: string, ap: seq<Arg>) returns (a: string, x: string, e: string)
    requires c !in "duoxp" && !IsModifier(c)
    ensures Render(FRESH, "%" + (SpecText(p) + ([c] + rest)), (if c in "sc" then [arg] else []) + ap) ==
      (a + x + e) + Render(FRESH, rest, ap)
    ensures c == 's' ==> x == if arg.Str? then arg.s else "(null)"
    ensures c == 'c' && arg.Chr? && arg.c != 0 as char ==> x == [arg.c]
    ensures c !in "sc" ==> x == [c]
    ensures var spc := if p.width > |x| then p.width - |x| else 0;
            var fill := if p.zero then '0' else ' ';
            Only(a, fill, if p.left then 0 else spc) && Only(e, fill, if p.left then spc else 0)
  {
    hide Digits, Padded, Render, SpecText;
    var args := (if c in "sc" then [arg] else []) + ap;
    FieldOf(p, c, rest, args);
    assert if c in "sc" then args[0] == arg && args[1..] == ap else args == ap;
    assert (if TakesArg(c) then Rest(args) else args) == ap;
    x := if c == 's' then StrArg(args) else if c == 'c' then (if ChrArg(args) == 0 as char then "" else [ChrArg(args)])
         else [c];
    var b, z;
    b, z, e := FieldShape(p, "", x);
    a := b + "" + z;
    assert b + "" + z + x + e == a + x + e;
  }

  /** Text without a percent sign goes out as it is. */
  lemma {:induction false} PlainText(s: string, rest: string, ap: seq<Arg>)
    requires '%' !in s
    ensures Render(FRESH, s + rest, ap) == s + Render(FRESH, rest, ap)
    decreases |s|
  {
    if s == "" {
      assert s + rest == rest;
    } else {
      assert (s + rest)[1..] == s[1..] + rest && (s + rest)[0] == s[0];
      PlainText(s[1..], rest, ap);
      assert NextFmt(FRESH, s[0]) == FRESH;
    }
  }

  // ---- zeros on the right ----

  lemma Twice(a: nat, b: nat)
    ensures a * (2 * b) == 2 * (a * b)
  {
  }

  lemma EvenFactor(m: nat, d: nat, x: nat)
    requires m % 2 == 1 && m * d == 2 * x
    ensures d % 2 == 0 && d == 2 * (d / 2)
  {
    var h := m / 2;
    assert m == 2 * h + 1;
    assert m * d == 2 * (h * d) + d;
  }

  /** An odd multiple of d is a multiple of 2^k only if d is. */
  lemma {:induction false} OddFactor(m: nat, d: nat, q: nat, k: nat) returns (e: nat)
    requires m % 2 == 1 && m * d == q * Pow2(k)
    ensures d == e * Pow2(k)
    decreases k
  {
    if k == 0 {
      e := d;
    } else {
      var p := Pow2(k - 1);
      Twice(q, p);
      EvenFactor(m, d, q * p);
      var h := d / 2;
      Twice(m, h);
      e := OddFactor(m, h, q, k - 1);
      Twice(e, p);
    }
  }

  lemma {:induction false} Pow10Even(k: nat)
    requires k > 0
    ensures Pow10(k) % 2 == 0 && Pow10(k) >= 10
  {
    if k > 1 {
      Pow10Even(k - 1);
    } else {
      assert Pow10(0) == 1;
    }
  }

  /** Appending zeros to a number changes it, in 32-bit arithmetic too, unless it is zero. */
  lemma ZerosMatter(m: nat, k: nat)
    requires m < TWO32
    ensures (m * Pow10(k)) % TWO32 == m <==> k == 0 || m == 0
  {
    if k > 0 && (m * Pow10(k)) % TWO32 == m {
      Pow10Even(k);
      var x := Pow10(k) - 1;
      var q := m * Pow10(k) / TWO32;
      assert x * m == m * Pow10(k) - m;
      Pow2Of32();
      var e := OddFactor(x, m, q, 32);
      assert e == 0;
    }
  }

  lemma LeftText(width: nat, n: int, k: int)
    requires k == Pad(Fmt(true, false, width, true, '0', false), |if n < 0 then "-"
      else ""| + |Digits(Magnitude('d', n), 10)|)
    ensures Parse(Render(FRESH, Format(true, true, width), [Num(n)]))
            == Signed(if n < 0 then (TWO32 - (Magnitude('d', n) * Pow10(k)) % TWO32) % TWO32
              else (Magnitude('d', n) * Pow10(k)) % TWO32)
  {
    hide Render, Parse, Digits, Value, Signed, Rep, Pow10, Magnitude, Text;
    FormatText(true, true, width, n);
    var m := Magnitude('d', n);
    var ds := Digits(m, 10);
    TextShape(true, true, width, n, k);
    ValueDigits(m);
    ValueShift(ds, k);
    assert (ds + Rep('0', k)) + "" == ds + Rep('0', k);
    ParseShape(0, n < 0, ds + Rep('0', k), "");
  }

  lemma SignUnique(n: int, v: int)
    requires -0x8000_0000 <= n < 0x8000_0000 && 0 <= v < TWO32
    ensures var m := Magnitude('d', n);
            0 <= m <= 0x8000_0000 && (m == 0 <==> n == 0) &&
              (Signed(if n < 0 then (TWO32 - v) % TWO32 else v) == n <==> v == m)
  {
  }

  /** Left-aligned with zero fill, the number is read back exactly if it fills the field or is 0. */
  lemma LeftZeros(width: nat, n: int)
    requires -0x8000_0000 <= n < 0x8000_0000
    ensures var len := |(if n < 0 then "-" else "") + Digits(Magnitude('d', n), 10)|;
            Parse(Render(FRESH, Format(true, true, width), [Num(n)])) == n <==> width <= len || n == 0
  {
    hide Render, Parse, Digits, Value, Signed, Rep, Pow10, Magnitude;
    var m := Magnitude('d', n);
    var ds := Digits(m, 10);
    var sign := if n < 0 then "-" else "";
    var k := Pad(Fmt(true, false, width, true, '0', false), |sign| + |ds|);
    LeftText(width, n, k);
    SignUnique(n, 0);
    ZerosMatter(m, k);
    SignUnique(n, (m * Pow10(k)) % TWO32);
  }

  /** %-05d prints 42 as 42000. */
  lemma LeftZerosExample()
    ensures Parse(Render(FRESH, "%-05d", [Num(42)])) != 42
  {
    assert Digits(42, 10) == "42" && Digits(5, 10) == "5";
    assert Format(true, true, 5) == "%-05d";
    LeftZeros(5, 42);
  }

  // ---- through a buffer ----

  /** No NUL in s. */
  predicate Plain(s: string) {
    forall k :: 0 <= k < |s| ==> s[k] != 0 as char
  }

  lemma RepPlain(c: char, n: int)
    requires c != 0 as char
    ensures Plain(Rep(c, n))
  {
    if n > 0 {
      RepAll(c, n);
    }
  }

  lemma DigitsPlain(n: nat)
    ensures Plain(Digits(n, 10))
  {
    hide Digits;
    ValueDigits(n);
  }

  lemma FormatPlain(left: bool, zero: bool, width: nat)
    ensures Plain(Format(left, zero, width))
  {
    hide Digits;
    DigitsPlain(width);
  }

  lemma TextPlain(left: bool, zero: bool, width: nat, n: int)
    ensures Plain(Text(left, zero, width, n))
  {
    hide Digits, Magnitude, Text, Rep;
    var sign, ds := if n < 0 then "-" else "", Digits(Magnitude('d', n), 10);
    var k := Pad(Fmt(true, false, width, left, if zero then '0' else ' ', false), |sign| + |ds|);
    TextShape(left, zero, width, n, k);
    DigitsPlain(Magnitude('d', n));
    RepPlain(' ', k);
    RepPlain('0', k);
    RepPlain(' ', 0);
  }

  /** The string in a buffer, up to its NUL. */
  method ReadString(buf: array<char>) returns (s: string)
    requires exists k :: 0 <= k < buf.Length && buf[k] == 0 as char
    ensures |s| < buf.Length && s == buf[..|s|] && buf[|s|] == 0 as char && Plain(s)
  {
    var i := 0;
    while buf[i] != 0 as char
      invariant 0 <= i < buf.Length && Plain(buf[..i]) && exists k :: i <= k < buf.Length && buf[k] == 0 as char
      decreases buf.Length - i
    {
      assert buf[..i + 1] == buf[..i] + [buf[i]];
      i := i + 1;
    }
    s := buf[..i];
  }

  lemma PlainFormat(s: string)
    requires Plain(s)
    ensures forall k :: 0 <= k < |s| ==> s[k] != 0 as char
  {
  }

  lemma SameString(b: string, s: string, t: string)
    requires |s| < |b| && s == b[..|s|] && b[|s|] == 0 as char && Plain(s)
    requires |t| < |b| && t == b[..|t|] && b[|t|] == 0 as char && Plain(t)
    ensures s == t
  {
    assert forall k :: 0 <= k < |t| ==> b[k] == t[k] != 0 as char;
    assert forall k :: 0 <= k < |s| ==> b[k] == s[k] != 0 as char;
  }

  /** snprintf of an int into a buffer that is long enough, then atoi of the string in the buffer. */
  method PrintAndRead(buf: array<char>, left: bool, zero: bool, width: nat, n: int) returns (r: int)
    requires -0x8000_0000 <= n < 0x8000_0000 && !(left && zero) && |Text(left, zero, width, n)| < buf.Length
    modifies buf
    ensures r == n
  {
    hide Text, Format, Parse, Render, Plain;
    FormatText(left, zero, width, n);
    TextPlain(left, zero, width, n);
    FormatPlain(left, zero, width);
    PlainFormat(Format(left, zero, width));
    ghost var text := Text(left, zero, width, n);
    var chars := Vsnprintf(buf, buf.Length, Format(left, zero, width), [Num(n)]);
    assert buf[..|text|] == text && buf[|text|] == 0 as char;
    var s := ReadString(buf);
    SameString(buf[..], text, s);
    PrintThenParse(left, zero, width, n);
    r := Atoi(s);
  }
}
