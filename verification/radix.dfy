/** Positional notation in bases 2 to 36: what a printed number is. */
module Radix {
  import opened Arith

  /** ruby_digitmap. */
  function DigitChar(d: nat): (c: char)
    requires d < 36
  {
    if d < 10 then '0' + d as char else 'a' + (d - 10) as char
  }

  /** conv_digit: the value of a digit character, -1 for any other character. */
  function ConvDigit(c: char): int {
    if '0' <= c <= '9' then c as int - '0' as int
    else if 'a' <= c <= 'z' then c as int - 'a' as int + 10
    else if 'A' <= c <= 'Z' then c as int - 'A' as int + 10
    else -1
  }

  lemma DigitCharConv(d: nat)
    requires d < 36
    ensures ConvDigit(DigitChar(d)) == d
    ensures DigitChar(d) == '0' <==> d == 0
    ensures DigitChar(d) !in ['_', '+', '-'] && DigitChar(d) as int > 32
  {
  }

  function Pow(base: nat, n: nat): (p: nat)
    ensures base > 0 ==> p > 0
  {
    if n == 0 then 1 else base * Pow(base, n - 1)
  }

  lemma {:induction false} PowAdd(base: nat, m: nat, n: nat)
    ensures Pow(base, m + n) == Pow(base, m) * Pow(base, n)
  {
    if m > 0 {
      PowAdd(base, m - 1, n);
      MulAssoc(base, Pow(base, m - 1), Pow(base, n));
    }
  }

  /** The n low digits of x, most significant first, zero-padded. */
  function Printed(x: nat, base: nat, n: nat): (s: string)
    requires 2 <= base <= 36
    ensures |s| == n
    decreases n
  {
    if n == 0 then "" else Printed(x / base, base, n - 1) + [DigitChar(x % base)]
  }

  /** The number a string of digits denotes. */
  function Denoted(s: string, base: nat): nat {
    if s == "" then 0
    else
      var d := ConvDigit(s[|s| - 1]);
      Denoted(s[..|s| - 1], base) * base + if d < 0 then 0 else d
  }

  /** A string without its leading zeros. */
  function Trim(s: string): string {
    if s != "" && s[0] == '0' then Trim(s[1..]) else s
  }

  lemma {:induction false} PrintedZero(base: nat, n: nat)
    requires 2 <= base <= 36
    ensures forall i :: 0 <= i < n ==> Printed(0, base, n)[i] == '0'
  {
    if n > 0 {
      PrintedZero(base, n - 1);
    }
  }

  /** The digits of q * base^m + r are those of q followed by the m digits of r. */
  lemma {:induction false} PrintedSplit(q: nat, r: nat, base: nat, n: nat, m: nat)
    requires 2 <= base <= 36 && m <= n && r < Pow(base, m)
    ensures Printed(q * Pow(base, m) + r, base, n) == Printed(q, base, n - m) + Printed(r, base, m)
    decreases m
  {
    if m == 0 {
      assert q * Pow(base, 0) + r == q;
      assert Printed(q, base, n) + "" == Printed(q, base, n);
    } else {
      var p := Pow(base, m - 1);
      var x := q * Pow(base, m) + r;
      DivMod(r, base);
      assert x == (q * p + r / base) * base + r % base by {
        MulAssoc(q, base, p);
        MulAdd(base, q * p, r / base);
        MulAssoc(q, p, base);
      }
      DivUnique(x, base, q * p + r / base, r % base);
      DivLess(r, base, p);
      PrintedSplit(q, r / base, base, n - 1, m - 1);
      var d := [DigitChar(r % base)];
      assert (Printed(q, base, n - m) + Printed(r / base, base, m - 1)) + d
          == Printed(q, base, n - m) + (Printed(r / base, base, m - 1) + d);
    }
  }

  lemma DivPow(x: nat, base: nat, n: nat)
    requires base > 0 && n > 0 && x < Pow(base, n)
    ensures x / base < Pow(base, n - 1) && x == (x / base) * base + x % base
  {
    DivLess(x, base, Pow(base, n - 1));
    DivMod(x, base);
  }

  /** A number's last digit and the rest. */
  lemma PrintedUnfold(x: nat, base: nat, n: nat) returns (rest: nat, d: nat)
    requires 2 <= base <= 36 && n > 0
    ensures x == rest * base + d && d < base && (x < Pow(base, n) ==> rest < Pow(base, n - 1))
    ensures Printed(x, base, n) == Printed(rest, base, n - 1) + [DigitChar(d)]
  {
    rest, d := x / base, x % base;
    DivMod(x, base);
    if x < Pow(base, n) {
      DivLess(x, base, Pow(base, n - 1));
    }
  }

  /** Printing enough digits loses nothing. */
  lemma {:induction false} DenotedPrinted(x: nat, base: nat, n: nat)
    requires 2 <= base <= 36 && x < Pow(base, n)
    ensures Denoted(Printed(x, base, n), base) == x
    decreases n
  {
    if n > 0 {
      hide *;
      var rest, d := PrintedUnfold(x, base, n);
      DenotedPrinted(rest, base, n - 1);
      DenotedSnoc(Printed(rest, base, n - 1), d, base);
    }
  }

  lemma DenotedSnoc(s: string, d: nat, base: nat)
    requires d < 36
    ensures Denoted(s + [DigitChar(d)], base) == Denoted(s, base) * base + d
  {
    var t := s + [DigitChar(d)];
    assert t[..|t| - 1] == s;
    DigitCharConv(d);
  }

  lemma {:induction false} TrimConcat(a: string, b: string)
    ensures Trim(a + b) == if Trim(a) == "" then Trim(b) else Trim(a) + b
  {
    if a != "" && a[0] == '0' {
      assert (a + b)[1..] == a[1..] + b;
      TrimConcat(a[1..], b);
    } else if a == "" {
      assert a + b == b;
    }
  }

  lemma {:induction false} TrimZeros(s: string)
    requires forall i :: 0 <= i < |s| ==> s[i] == '0'
    ensures Trim(s) == ""
  {
    if s != "" {
      TrimZeros(s[1..]);
    }
  }

  /** The first j characters being the zeros, trimming drops exactly them. */
  lemma {:induction false} TrimPrefix(s: string, j: nat)
    requires j <= |s| && forall i :: 0 <= i < j ==> s[i] == '0'
    requires j == |s| || s[j] != '0'
    ensures Trim(s) == s[j..]
  {
    if j > 0 {
      TrimPrefix(s[1..], j - 1);
      assert s[1..][j - 1..] == s[j..];
    } else {
      assert s[0..] == s;
    }
  }

  lemma {:induction false} DenotedSplit(a: string, b: string, base: nat)
    ensures Denoted(a + b, base) == Denoted(a, base) * Pow(base, |b|) + Denoted(b, base)
  {
    if b == "" {
      assert a + b == a;
    } else {
      var n := |b| - 1;
      assert (a + b)[..|a + b| - 1] == a + b[..n];
      DenotedSplit(a, b[..n], base);
      MulAdd(base, Denoted(a, base) * Pow(base, n), Denoted(b[..n], base));
      MulAssoc(Denoted(a, base), Pow(base, n), base);
      MulAssoc(Denoted(a, base), base, Pow(base, n));
    }
  }

  lemma {:induction false} DenotedTrim(s: string, base: nat)
    ensures Denoted(Trim(s), base) == Denoted(s, base)
  {
    if s != "" && s[0] == '0' {
      assert s == ["0"[0]] + s[1..];
      DenotedSplit(['0'], s[1..], base);
      assert ['0'][..0] == [];
      DenotedTrim(s[1..], base);
    }
  }

  /** Letters are printed small. */
  predicate Small(s: string) {
    forall i :: 0 <= i < |s| ==> '0' <= s[i] <= '9' || 'a' <= s[i] <= 'z'
  }

  ghost predicate AllDigits(s: string, base: nat) {
    forall i :: 0 <= i < |s| ==> 0 <= ConvDigit(s[i]) < base && s[i] as int > 32 && s[i] !in ['_', '+', '-']
  }

  lemma {:induction false} PrintedDigits(x: nat, base: nat, n: nat)
    requires 2 <= base <= 36
    ensures AllDigits(Printed(x, base, n), base) && Small(Printed(x, base, n))
    decreases n
  {
    if n > 0 {
      PrintedDigits(x / base, base, n - 1);
      DigitCharConv(x % base);
    }
  }

  lemma {:induction false} TrimFacts(s: string, base: nat)
    requires AllDigits(s, base) && Small(s)
    ensures AllDigits(Trim(s), base) && Small(Trim(s)) && |Trim(s)| <= |s|
    ensures Trim(s) == "" || Trim(s)[0] != '0'
  {
    if s != "" && s[0] == '0' {
      TrimFacts(s[1..], base);
    }
  }

  /** The digits of x with no leading zeros; nothing for zero. */
  function Canonical(x: nat, base: nat): string
    requires 2 <= base <= 36
    decreases x
  {
    if x == 0 then ""
    else
      DivSmaller(x, base);
      Canonical(x / base, base) + [DigitChar(x % base)]
  }

  lemma DivSmaller(x: nat, base: nat)
    requires x > 0 && base >= 2
    ensures 0 <= x / base < x
  {
    MulLe(2, base, x);
    DivLess(x, base, x);
  }

  /** However many digits are printed, trimming leaves the canonical ones. */
  lemma {:induction false} TrimPrinted(x: nat, base: nat, n: nat)
    requires 2 <= base <= 36 && x < Pow(base, n)
    ensures Trim(Printed(x, base, n)) == Canonical(x, base)
    decreases n
  {
    hide Pow, Trim;
    if x == 0 {
      PrintedZero(base, n);
      TrimZeros(Printed(0, base, n));
    } else {
      PowZero(base);
      assert n > 0;
      DivPow(x, base, n);
      TrimPrinted(x / base, base, n - 1);
      var front, d := Printed(x / base, base, n - 1), x % base;
      TrimConcat(front, [DigitChar(d)]);
      if Trim(front) == "" {
        CanonicalEmpty(x / base, base);
        DigitCharConv(d);
        TrimOne(DigitChar(d));
      }
    }
  }

  lemma PowZero(base: nat)
    ensures Pow(base, 0) == 1
  {
  }

  lemma TrimOne(c: char)
    ensures Trim([c]) == if c == '0' then "" else [c]
  {
    assert Trim([]) == [];
  }

  lemma CanonicalEmpty(x: nat, base: nat)
    requires 2 <= base <= 36 && Canonical(x, base) == ""
    ensures x == 0
  {
  }

  /** Some number of digits is always enough. */
  lemma {:induction false} EnoughDigits(x: nat, base: nat)
    requires 2 <= base
    ensures x < Pow(base, x)
  {
    if x > 0 {
      EnoughDigits(x - 1, base);
      MulLe(2, base, Pow(base, x - 1));
    }
  }

  /** t is digits of the base, letters small, for the number x. */
  ghost predicate Writes(t: string, base: nat, x: nat) {
    AllDigits(t, base) && Small(t) && Denoted(t, base) == x
  }

  /** The canonical digits denote the number and do not start with a zero. */
  lemma CanonicalFacts(x: nat, base: nat)
    requires 2 <= base <= 36
    ensures Writes(Canonical(x, base), base, x)
    ensures x > 0 ==> Canonical(x, base) != "" && Canonical(x, base)[0] != '0'
  {
    hide Pow;
    EnoughDigits(x, base);
    TrimPrinted(x, base, x);
    var s := Printed(x, base, x);
    DenotedPrinted(x, base, x);
    DenotedTrim(s, base);
    PrintedDigits(x, base, x);
    TrimFacts(s, base);
  }

  lemma DigitBack(c: char, base: nat)
    requires 2 <= base <= 36 && Small([c]) && AllDigits([c], base)
    ensures 0 <= ConvDigit(c) < base && DigitChar(ConvDigit(c)) == c
  {
    assert [c][0] == c;
  }

  /** What is written without its last digit. */
  lemma WritesFront(t: string, base: nat, x: nat)
    requires 2 <= base <= 36 && t != "" && Writes(t, base, x)
    ensures Writes(t[..|t| - 1], base, x / base) && t == t[..|t| - 1] + [DigitChar(x % base)]
  {
    var n := |t| - 1;
    var d := ConvDigit(t[n]);
    assert [t[n]][0] == t[n];
    DigitBack(t[n], base);
    DivUnique(x, base, Denoted(t[..n], base), d);
  }

  lemma CanonicalSnoc(x: nat, base: nat)
    requires 2 <= base <= 36
    ensures Canonical(0, base) == "" && 0 / base == 0 && DigitChar(0) == '0'
    ensures x > 0 ==> Canonical(x, base) == Canonical(x / base, base) + [DigitChar(x % base)]
  {
  }

  /** Only the canonical digits write the number without a leading zero, letters small. */
  lemma {:induction false} CanonicalOnly(t: string, base: nat, x: nat)
    requires 2 <= base <= 36 && Writes(t, base, x) && (t == "" || t[0] != '0')
    ensures t == Canonical(x, base)
    decreases |t|
  {
    hide Writes, Canonical, Denoted, ConvDigit, DigitChar, Pow;
    CanonicalSnoc(x, base);
    if t == "" {
      assert x == 0 by { DenotedEmpty(t, base, x); }
    } else {
      var front := t[..|t| - 1];
      WritesFront(t, base, x);
      CanonicalOnly(front, base, x / base);
    }
  }

  lemma DenotedEmpty(t: string, base: nat, x: nat)
    requires t == "" && Writes(t, base, x)
    ensures x == 0
  {
  }

  /** Only the padded digits write it in n characters. */
  lemma {:induction false} PrintedOnly(t: string, base: nat, x: nat)
    requires 2 <= base <= 36 && Writes(t, base, x)
    ensures t == Printed(x, base, |t|)
    decreases |t|
  {
    hide Writes;
    if t != "" {
      WritesFront(t, base, x);
      PrintedOnly(t[..|t| - 1], base, x / base);
    }
  }

  lemma PrintedWrites(x: nat, base: nat, n: nat)
    requires 2 <= base <= 36 && x < Pow(base, n)
    ensures Writes(Printed(x, base, n), base, x)
  {
    DenotedPrinted(x, base, n);
    PrintedDigits(x, base, n);
  }

  /** The digits of conv_digit: ten figures, and from ten on the letters in order, capital or small; nothing
      else. */
  lemma DigitOrder(c: char)
    ensures ConvDigit('0') == 0 && ConvDigit('a') == 10 && ConvDigit('A') == 10
    ensures c in ['9', 'z', 'Z'] || ConvDigit(c) == -1 || ConvDigit((c as int + 1) as char) == ConvDigit(c) + 1
    ensures ConvDigit(c) >= 0 <==> '0' <= c <= '9' || 'a' <= c <= 'z' || 'A' <= c <= 'Z'
    ensures ConvDigit(c) < 0 ==> ConvDigit(c) == -1
  {
  }

  /** The text of an integer: a minus sign when negative, then its digits. */
  function Text(v: int, base: nat): string
    requires 2 <= base <= 36
  {
    if v == 0 then "0" else if v < 0 then "-" + Canonical(-v, base) else Canonical(v, base)
  }
}
