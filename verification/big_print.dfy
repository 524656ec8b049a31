/** big2str_orig, the power cache and big2str_karatsuba of bignum.c. */
module BigPrint {
  import opened Digits
  import opened Arith
  import opened Bignums
  import opened BigDivide
  import opened BigPower
  import opened Radix

  const KARATSUBA_DIGITS: nat := 128
  const MAX_BIG2STR_TABLE_ENTRIES: nat := 64

  /** What printing leaves in the buffer: len digits of x, or none of their leading zeros. */
  function Output(x: nat, base: nat, len: nat, trim: bool): string
    requires 2 <= base <= 36
  {
    if trim then Trim(Printed(x, base, len)) else Printed(x, base, len)
  }

  lemma PrintedStep(Q: nat, num: nat, base: nat, k: nat, j: nat, rest: nat, d: nat)
    requires 2 <= base <= 36 && k > 0 && j > 0 && num < Pow(base, k)
    requires num == rest * base + d && d < base
    ensures rest < Pow(base, k - 1)
    ensures Printed(Q * Pow(base, k) + num, base, j)
            == Printed(Q * Pow(base, k - 1) + rest, base, j - 1) + [DigitChar(d)]
  {
    var p, x := Pow(base, k - 1), Q * Pow(base, k) + num;
    DivUnique(num, base, rest, d);
    DivPow(num, base, k);
    assert x == (Q * p + rest) * base + d by {
      MulAssoc(Q, base, p);
      MulAdd(base, Q * p, rest);
      MulAssoc(Q, p, base);
    }
    DivUnique(x, base, Q * p + rest, d);
  }

  lemma PrintedNoMore(Q: nat, num: nat, base: nat, k: nat, j: nat)
    requires 2 <= base <= 36 && num < Pow(base, k)
    requires k == 0 || j == 0 || (Q == 0 && num == 0)
    ensures Printed(Q * Pow(base, k) + num, base, j) == Printed(Q, base, j)
  {
  }

  /** The digits of the number whose last k are num and the others Q. */
  ghost function Digits4(Q: nat, num: nat, base: nat, k: nat, j: nat): string
    requires 2 <= base <= 36
  {
    Printed(Q * Pow(base, k) + num, base, j)
  }

  /** Characters t written over those of s from at on. */
  function Over(s: string, at: nat, t: string): (r: string)
    requires at + |t| <= |s|
    ensures |r| == |s|
  {
    s[..at] + t + s[at + |t|..]
  }

  lemma OverMore(s: string, at: nat, t: string, c: char)
    requires 0 < at && at + |t| <= |s|
    ensures Over(s, at, t)[at - 1 := c] == Over(s, at - 1, [c] + t)
  {
  }

  lemma OverParts(s: string, at: nat, t: string, off: nat, end: nat)
    requires off <= at && at + |t| == end <= |s|
    ensures var r := Over(s, at, t); r[..off] == s[..off] && r[end..] == s[end..] && r[at..end] == t
  {
  }

  /** The last digit of a number and what is above it. */
  method LastDigit(num: nat, base: nat, ghost Q: nat, ghost k: nat, ghost j: nat) returns (rest: nat, d: nat)
    requires 2 <= base <= 36 && k > 0 && j > 0 && num < Pow(base, k)
    ensures rest < Pow(base, k - 1) && d < base
    ensures Digits4(Q, num, base, k, j) == Digits4(Q, rest, base, k - 1, j - 1) + [DigitChar(d)]
  {
    hide Printed, Pow, DigitChar;
    DivMod(num, base);
    rest, d := num / base, num % base;
    PrintedStep(Q, num, base, k, j, rest, d);
  }

  /** The loop itself: from the right, until there are four digits or an early exit. */
  method PutLoop(ptr: array<char>, off: nat, j0: nat, base: nat, num0: nat, last: bool, ghost Q: nat) returns (j: nat)
    requires 2 <= base <= 36 && 0 < j0 && off + j0 <= ptr.Length && num0 < Pow(base, 4) && (last ==> Q == 0)
    modifies ptr
    ensures j < j0 && ptr[..off] == old(ptr[..off]) && ptr[off + j0..] == old(ptr[off + j0..])
    ensures Digits4(Q, num0, base, 4, j0) == Printed(Q, base, j) + ptr[off + j..off + j0]
  {
    hide Printed, Pow, DigitChar, Over, Digits4;
    j := j0;
    var k := 4;
    var num: nat := num0;
    ghost var was, whole, put := ptr[..], Digits4(Q, num0, base, 4, j0), "";
    assert ptr[..] == Over(was, off + j, put) by { OverNone(was, off + j); }
    assert whole + put == whole;
    while k > 0
      invariant 0 <= k <= 4 && 0 < j <= j0 && j == j0 - (4 - k) && num < Pow(base, k) && |put| == j0 - j
      invariant ptr[..] == Over(was, off + j, put) && whole == Digits4(Q, num, base, k, j) + put
    {
      var rest, d := LastDigit(num, base, Q, k, j);
      OverMore(was, off + j, put, DigitChar(d));
      k := k - 1;
      j := j - 1;
      ptr[off + j] := DigitChar(d);
      num := rest;
      Moved(Digits4(Q, rest, base, k, j), DigitChar(d), put);
      put := [DigitChar(d)] + put;
      if j <= 0 { break; }
      if last && num == 0 { break; }
    }
    DigitsLeft(Q, num, base, k, j);
    OverParts(was, off + j, put, off, off + j0);
    SlicesOf(ptr, off, off + j, off + j0);
  }

  /** The inner loop of big2str_orig: up to four digits of num, from the right, Q being the
      part of the number above num. It stops early at the left edge of the buffer, and, for the
      last piece of a trimmed number, once num is used up. */
  method PutDigits(ptr: array<char>, off: nat, j0: nat, base: nat, num0: nat, last: bool, ghost Q: nat)
    returns (j: nat)
    requires 2 <= base <= 36 && 0 < j0 && off + j0 <= ptr.Length && num0 < Pow(base, 4)
    requires last ==> Q == 0
    modifies ptr
    ensures j < j0 && ptr[..off] == old(ptr[..off]) && ptr[off + j0..] == old(ptr[off + j0..])
    ensures Printed(Q * Pow(base, 4) + num0, base, j0) == Printed(Q, base, j) + ptr[off + j..off + j0]
  {
    hide Printed, Pow;
    j := PutLoop(ptr, off, j0, base, num0, last, Q);
  }

  lemma OverNone(s: string, at: nat)
    requires at <= |s|
    ensures Over(s, at, "") == s
  {
  }

  lemma SlicesOf(a: array<char>, i: nat, j: nat, k: nat)
    requires i <= j <= k <= a.Length
    ensures a[..i] == a[..][..i] && a[j..k] == a[..][j..k] && a[k..] == a[..][k..]
  {
  }

  lemma DigitsLeft(Q: nat, num: nat, base: nat, k: nat, j: nat)
    requires 2 <= base <= 36 && num < Pow(base, k)
    requires k == 0 || j == 0 || (Q == 0 && num == 0)
    ensures Digits4(Q, num, base, k, j) == Printed(Q, base, j)
  {
    PrintedNoMore(Q, num, base, k, j);
  }

  lemma Moved(front: string, c: char, tail: string)
    ensures (front + [c]) + tail == front + ([c] + tail)
  {
  }

  /** One turn of the outer loop: x shortened by a division by base^4, the remainder put in front of j0. */
  method PutRemainder(x: Bignum, i0: nat, base: nat, ptr: array<char>, off: nat, j0: nat, hbase: Digit, trim: bool)
    returns (i: nat, j: nat)
    requires 2 <= base <= 36 && hbase == Pow(base, 4)
    requires x.Valid() && 0 < i0 <= x.len && 0 < j0 && off + j0 <= ptr.Length
    modifies ptr, x.ds
    ensures i <= i0 && (!trim ==> i == i0) && j < j0
    ensures ptr[..off] == old(ptr[..off]) && ptr[off + j0..] == old(ptr[off + j0..])
    ensures old(Printed(Val(x.ds[..i0]), base, j0)) == Printed(Val(x.ds[..i]), base, j) + ptr[off + j..off + j0]
  {
    hide Printed, Pow, Val;
    var num := ShortDivide(x.ds, i0, hbase);
    i := i0;
    ghost var Q := Val(x.ds[..i]);
    if trim && x.ds[i - 1] == 0 {
      TrimValue(x.ds[..i], i - 1);
      assert x.ds[..i][..i - 1] == x.ds[..i - 1];
      i := i - 1;
    }
    assert i == 0 ==> Q == 0 by { ValOne(x.ds[..i]); }
    ghost var after := x.ds[..i];
    j := PutDigits(ptr, off, j0, base, num, trim && i == 0, Q);
    assert x.ds[..i] == after;
  }

  /** big2str_orig: repeated short division by base^4, consuming x. */
  method Big2StrOrig(x: Bignum, base: nat, ptr: array<char>, off: nat, len: nat, hbase: Digit, trim: bool)
    returns (n: nat)
    requires 2 <= base <= 36 && hbase == Pow(base, 4)
    requires x.Valid() && (trim || x.len > 0) && off + len <= ptr.Length
    modifies ptr, x.ds
    ensures n <= len && ptr[..off] == old(ptr[..off])
    ensures ptr[off..off + n] == Output(old(x.Mag()), base, len, trim)
  {
    hide Printed, Pow, Val;
    var i, j := x.len, len;
    ghost var whole := Printed(x.Mag(), base, len);
    assert whole == whole + ptr[off + j..off + len];
    while i > 0 && j > 0
      invariant 0 <= i <= x.len && 0 <= j <= len
      invariant !trim ==> i == x.len
      invariant ptr[..off] == old(ptr[..off])
      invariant whole == Printed(Val(x.ds[..i]), base, j) + ptr[off + j..off + len]
      decreases j
      modifies ptr, x.ds
    {
      ghost var tail, rest, j0 := ptr[off + j..off + len], ptr[off + j..], j;
      i, j := PutRemainder(x, i, base, ptr, off, j, hbase, trim);
      assert tail == rest[..len - j0] == ptr[off + j0..][..len - j0] == ptr[off + j0..off + len];
      assert ptr[off + j..off + len] == ptr[off + j..off + j0] + tail;
    }
    if trim {
      ghost var front, tail := Printed(Val(x.ds[..i]), base, j), ptr[off + j..off + len];
      assert Trim(front) == "" by { ZerosInFront(x.ds[..i], base, j); }
      TrimConcat(front, tail);
      n := DropZeros(ptr, off, j, len);
    } else {
      NoDigits(Val(x.ds[..i]), base);
      n := len;
    }
  }

  lemma NoDigits(x: nat, base: nat)
    requires 2 <= base <= 36
    ensures Printed(x, base, 0) == ""
  {
  }

  lemma ZerosInFront(s: seq<Digit>, base: nat, j: nat)
    requires 2 <= base <= 36 && (|s| == 0 || j == 0)
    ensures Trim(Printed(Val(s), base, j)) == ""
  {
    PrintedZero(base, j);
    TrimZeros(Printed(Val(s), base, j));
  }

  /** The characters from there on moved down to off. */
  method MoveDown(ptr: array<char>, off: nat, from: nat, n: nat)
    requires off <= from && from + n <= ptr.Length
    modifies ptr
    ensures ptr[..off] == old(ptr[..off]) && ptr[off..off + n] == old(ptr[from..from + n])
  {
    ghost var front, part := ptr[..off], ptr[from..from + n];
    forall i | 0 <= i < n {
      ptr[off + i] := ptr[from + i];
    }
    assert forall i :: 0 <= i < n ==> ptr[off + i] == part[i];
    assert ptr[..off] == front && ptr[off..off + n] == part;
  }

  /** The end of big2str_orig when trimming: skips leading zeros and moves the rest down. */
  method DropZeros(ptr: array<char>, off: nat, j0: nat, len: nat) returns (n: nat)
    requires j0 <= len && off + len <= ptr.Length
    modifies ptr
    ensures n <= len && ptr[..off] == old(ptr[..off])
    ensures ptr[off..off + n] == Trim(old(ptr[off + j0..off + len]))
  {
    hide Trim;
    var j := j0;
    ghost var s := ptr[off + j0..off + len];
    while j < len && ptr[off + j] == '0'
      invariant j0 <= j <= len
      invariant forall i :: 0 <= i < j - j0 ==> s[i] == '0'
    {
      assert s[j - j0] == ptr[off + j];
      j := j + 1;
    }
    TrimPrefix(s, j - j0) by { assert j < len ==> s[j - j0] == ptr[off + j]; }
    assert ptr[off + j..off + len] == s[j - j0..];
    n := len - j;
    MoveDown(ptr, off, off + j, n);
  }

  /** The least m with 2^m >= n. */
  function CeilLog2(n: nat): (m: nat)
    requires n >= 1
    ensures n <= Pow2(m) && (m > 0 ==> Pow2(m) <= 2 * n - 2)
  {
    if n == 1 then 0 else CeilLog2((n + 1) / 2) + 1
  }

  /** The memoised powers base^(128 * 2^i). */
  class PowerCache {
    var entries: map<(nat, nat), Bignum>
    ghost var Repr: set<object>

    ghost predicate Valid()
      reads this, Repr
    {
      && this in Repr
      && forall k | k in entries ::
        && entries[k] in Repr && entries[k].ds in Repr
        && IsPower(entries[k], k.0, KARATSUBA_DIGITS * Pow2(k.1))
    }

    /** power_cache_init. */
    constructor ()
      ensures Valid() && fresh(Repr)
    {
      entries := map[];
      Repr := {this};
    }

    /** power_cache_get_power0. */
    method GetPower0(base: nat, i: nat) returns (t: Bignum)
      requires Valid() && 2 <= base <= 36 && i < MAX_BIG2STR_TABLE_ENTRIES
      modifies this
      ensures Valid() && fresh(Repr - old(Repr))
      ensures t in Repr && t.ds in Repr && IsPower(t, base, KARATSUBA_DIGITS * Pow2(i))
      decreases i
    {
      hide IsPower, Pow;
      if (base, i) !in entries {
        if i == 0 {
          t := FirstPower(base);
        } else {
          var s := GetPower0(base, i - 1);
          t := SquarePower(s, base, KARATSUBA_DIGITS * Pow2(i - 1));
        }
        entries := entries[(base, i) := t];
        Repr := Repr + {t, t.ds};
      }
      t := entries[(base, i)];
    }

    /** power_cache_get_power: base^m1 for m1 the least power of two not below n1. */
    method GetPower(base: nat, n1: nat) returns (t: Bignum, m1: nat)
      requires Valid() && 2 <= base <= 36 && n1 > KARATSUBA_DIGITS
      modifies this
      ensures Valid() && fresh(Repr - old(Repr))
      ensures m1 == Pow2(CeilLog2(n1)) && n1 <= m1 <= 2 * n1 - 2
      ensures IsPower(t, base, m1) && t.ds.Length >= 0
      ensures (t in Repr && t.ds in Repr) || (fresh(t) && fresh(t.ds))
    {
      hide IsPower, Pow;
      var m := CeilLog2(n1);
      m1 := Pow2(m);
      AboveSeven(m, n1);
      var i: nat := m - 7;
      if i >= MAX_BIG2STR_TABLE_ENTRIES {
        i := MAX_BIG2STR_TABLE_ENTRIES - 1;
      }
      t := GetPower0(base, i);
      var j := KARATSUBA_DIGITS * Pow2(i);
      ghost var e := i + 7;
      SevenMore(i);
      ghost var repr := Repr;
      while n1 > j
        invariant Valid() && fresh(Repr - old(Repr)) && Repr == repr
        invariant e <= m && j == Pow2(e)
        invariant IsPower(t, base, j)
        invariant (t in Repr && t.ds in Repr) || (fresh(t) && fresh(t.ds))
        modifies {}
        decreases m - e
      {
        Pow2Order(e, m);
        t := SquarePower(t, base, j);
        j := j * 2;
        e := e + 1;
      }
      Pow2Least(e, m, n1);
    }
  }

  /** t holds base to the power e and is long enough not to be a single digit. */
  ghost predicate IsPower(t: Bignum, base: nat, e: nat)
    reads t, t.ds
  {
    t.Valid() && t.Normal() && t.sign && t.Mag() == Pow(base, e)
  }

  method FirstPower(base: nat) returns (t: Bignum)
    requires 2 <= base <= 36
    ensures fresh(t) && fresh(t.ds) && IsPower(t, base, KARATSUBA_DIGITS * Pow2(0))
  {
    var b := new Bignum.FromDigit(base, true);
    var tooBig;
    tooBig, t := BigPow(b, KARATSUBA_DIGITS);
    PowIsIntPow(base, KARATSUBA_DIGITS);
  }

  lemma {:induction false} PowIsIntPow(b: nat, e: nat)
    ensures IntPow(b, e) == Pow(b, e)
  {
    if e > 0 {
      PowIsIntPow(b, e - 1);
    }
  }

  method SquarePower(s: Bignum, base: nat, e: nat) returns (t: Bignum)
    requires base > 0 && IsPower(s, base, e)
    ensures fresh(t) && fresh(t.ds) && IsPower(t, base, 2 * e)
  {
    t := BigSqr(s);
    PowAdd(base, e, e);
  }

  lemma AboveSeven(m: nat, n: nat)
    requires n > 128 && n <= Pow2(m)
    ensures m >= 8
  {
    assert Pow2(7) == 128;
    if m <= 7 {
      Pow2Monotone(m, 7);
    }
  }

  lemma {:induction false} Pow2Monotone(a: nat, b: nat)
    requires a <= b
    ensures Pow2(a) <= Pow2(b)
    decreases b - a
  {
    if a < b {
      Pow2Monotone(a + 1, b);
    }
  }

  lemma SevenMore(i: nat)
    ensures KARATSUBA_DIGITS * Pow2(i) == Pow2(i + 7)
  {
    Pow2Add(7, i);
    assert Pow2(7) == 128;
  }

  lemma Pow2Order(e: nat, m: nat)
    requires e <= m
    ensures Pow2(e + 1) == 2 * Pow2(e)
  {
  }

  lemma Pow2Least(e: nat, m: nat, n: nat)
    requires e <= m && n <= Pow2(e) && Pow2(m) <= 2 * n - 2
    ensures Pow2(e) == Pow2(m)
  {
    if e < m {
      Pow2Monotone(e + 1, m);
    }
  }

  /** The halves of a number print side by side; the low half is trimmed only when the high half
      left nothing. */
  lemma OutputSplit(q: nat, r: nat, base: nat, len: nat, m1: nat, trim: bool)
    requires 2 <= base <= 36 && m1 <= len && r < Pow(base, m1)
    ensures var high := Output(q, base, len - m1, trim);
            Output(q * Pow(base, m1) + r, base, len, trim) == high + Output(r, base, m1, high == "" && trim)
  {
    PrintedSplit(q, r, base, len, m1);
    TrimConcat(Printed(q, base, len - m1), Printed(r, base, m1));
    if !trim && len == m1 {
      assert Printed(q, base, 0) + Printed(r, base, m1) == Printed(r, base, m1);
    }
  }

  lemma HalvesFit(x: nat, q: nat, r: nat, base: nat, len: nat, m1: nat)
    requires base > 0 && m1 <= len && x < Pow(base, len) && x == q * Pow(base, m1) + r
    ensures q < Pow(base, len - m1)
  {
    hide Pow;
    var p := Pow(base, len - m1);
    PowAdd(base, len - m1, m1);
    if q >= p {
      MulLe(p, q, Pow(base, m1));
    }
  }

  /** A power of more than 128 digits in any base is longer than one bignum digit. */
  lemma LongPower(s: seq<Digit>, base: nat, m1: nat)
    requires 2 <= base && m1 >= 32 && Val(s) == Pow(base, m1)
    ensures |s| != 1
  {
    hide Val;
    PowGe(base, m1);
    Pow2Monotone(32, m1);
    Pow2Digit();
    ValOne(s);
  }

  lemma {:induction false} PowGe(base: nat, n: nat)
    requires 2 <= base
    ensures Pow(base, n) >= Pow2(n)
  {
    if n > 0 {
      PowGe(base, n - 1);
      MulLe(2, base, Pow(base, n - 1));
    }
  }

  lemma OutputZero(base: nat, len: nat)
    requires 2 <= base <= 36
    ensures Output(0, base, len, true) == ""
    ensures |Output(0, base, len, false)| == len && forall i :: 0 <= i < len ==> Output(0, base, len, false)[i] == '0'
  {
    PrintedZero(base, len);
    TrimZeros(Printed(0, base, len));
  }

  /** The branch for zero: nothing, or zeros all the way. */
  method PutZero(base: nat, ptr: array<char>, off: nat, len: nat, trim: bool) returns (n: nat)
    requires 2 <= base <= 36 && off + len <= ptr.Length
    modifies ptr
    ensures n <= len && ptr[..off] == old(ptr[..off])
    ensures ptr[off..off + n] == Output(0, base, len, trim)
  {
    OutputZero(base, len);
    n := 0;
    if !trim {
      forall i | 0 <= i < len { ptr[off + i] := '0'; }
      n := len;
      assert ptr[off..off + n] == Output(0, base, len, false);
    }
  }

  /** big2str_karatsuba: prints x by splitting it at a cached power of the base, consuming x. */
  method Big2StrKaratsuba(cache: PowerCache, x: Bignum, base: nat, ptr: array<char>, off: nat,
                          n1: nat, len: nat, hbase: Digit, trim: bool)
    returns (n: nat)
    requires 2 <= base <= 36 && hbase == Pow(base, 4) && off + len <= ptr.Length
    requires cache.Valid() && {x, x.ds, ptr} !! cache.Repr
    requires x.Valid() && x.Normal() && x.sign && x.Mag() < Pow(base, len)
    requires n1 > KARATSUBA_DIGITS ==> 2 * n1 - 1 <= len
    modifies ptr, x, x.ds, cache
    ensures cache.Valid() && fresh(cache.Repr - old(cache.Repr)) && x.Valid()
    ensures n <= len && ptr[..off] == old(ptr[..off])
    ensures ptr[off..off + n] == Output(old(x.Mag()), base, len, trim)
    decreases len, 1
  {
    hide Val, Pow, Output, IsPower, CeilLog2, PowerCache.Valid;
    var z := x.IsZero();
    if z {
      n := PutZero(base, ptr, off, len, trim);
      return;
    }
    if n1 <= KARATSUBA_DIGITS {
      assert x.len > 0 by { ValOne(x.ds[..x.len]); }
      n := Big2StrOrig(x, base, ptr, off, len, hbase, trim);
      return;
    }
    var b, m1 := cache.GetPower(base, n1);
    var q, r := SplitAtPower(x, b, base, m1);
    ghost var X, Q, R := x.Mag(), q.Mag(), r.Mag();
    HalvesFit(X, Q, R, base, len, m1);
    OutputSplit(Q, R, base, len, m1, trim);
    n := PrintHalves(cache, q, r, base, ptr, off, len, m1, hbase, trim);
  }

  /** The two recursive calls of big2str_karatsuba. */
  method PrintHalves(cache: PowerCache, q: Bignum, r: Bignum, base: nat, ptr: array<char>, off: nat,
                     len: nat, m1: nat, hbase: Digit, trim: bool)
    returns (n: nat)
    requires 2 <= base <= 36 && hbase == Pow(base, 4) && off + len <= ptr.Length && 0 < m1 < len
    requires cache.Valid() && {q, q.ds, r, r.ds, ptr} !! cache.Repr && q != r && q.ds != r.ds
    requires q.Valid() && q.Normal() && q.sign && q.Mag() < Pow(base, len - m1)
    requires r.Valid() && r.Normal() && r.sign && r.Mag() < Pow(base, m1)
    modifies ptr, q, q.ds, r, r.ds, cache
    ensures cache.Valid() && fresh(cache.Repr - old(cache.Repr)) && q.Valid() && r.Valid()
    ensures n <= len && ptr[..off] == old(ptr[..off])
    ensures var high := Output(old(q.Mag()), base, len - m1, trim);
            ptr[off..off + n] == high + Output(old(r.Mag()), base, m1, high == "" && trim)
    decreases len, 0
  {
    hide Val, Pow, Output, PowerCache.Valid;
    var lh := Big2StrKaratsuba(cache, q, base, ptr, off, (len - m1) / 2, len - m1, hbase, trim);
    q.Resize(0);
    ghost var high := ptr[off..off + lh];
    var ll := Big2StrKaratsuba(cache, r, base, ptr, off + lh, m1 / 2, m1, hbase, lh == 0 && trim);
    assert ptr[off..off + lh] == ptr[..off + lh][off..] == high;
    assert ptr[off..off + lh + ll] == high + ptr[off + lh..off + lh + ll];
    r.Resize(0);
    n := lh + ll;
  }

  /** bigdivmod by a cached power. */
  method SplitAtPower(x: Bignum, b: Bignum, base: nat, m1: nat) returns (q: Bignum, r: Bignum)
    requires x.Valid() && x.Normal() && x.sign && 2 <= base && m1 >= 32 && IsPower(b, base, m1)
    ensures fresh(q) && fresh(q.ds) && q.Valid() && r.Valid() && q != r && q.ds != r.ds
    ensures r == x || (fresh(r) && fresh(r.ds))
    ensures q.Normal() && r.Normal() && q.sign && r.sign
    ensures x.Mag() == q.Mag() * Pow(base, m1) + r.Mag() && r.Mag() < Pow(base, m1)
  {
    hide Val, Pow;
    LongPower(b.ds[..b.len], base, m1);
    var zerodiv;
    zerodiv, q, r := BigDivMod(x, b);
  }

  /** The digits of a copy of x, which printing destroys. */
  method PrintCopy(cache: PowerCache, x: Bignum, base: nat, buf: array<char>, off: nat, n1: nat, n2: nat, hbase: Digit,
                   trim: bool)
    returns (len: nat)
    requires cache.Valid() && x.Valid() && x.Normal() && {x, x.ds as object} !! cache.Repr && buf !in cache.Repr
    requires 2 <= base <= 36 && hbase == Pow(base, 4) && off + n2 <= buf.Length && n1 == (n2 + 1) / 2
    requires x.Mag() != 0 && x.Mag() < Pow(base, n2)
    modifies cache, buf
    ensures cache.Valid() && fresh(cache.Repr - old(cache.Repr))
    ensures len <= n2 && buf[..off] == old(buf[..off]) && buf[off..off + len] == Output(x.Mag(), base, n2, trim)
  {
    hide Val, Pow, Output, PowerCache.Valid;
    var xx := x.Clone();
    assert xx.ds[..xx.len] == x.ds[..x.len];
    xx.sign := true;
    if n1 <= KARATSUBA_DIGITS {
      assert xx.len > 0 by { ValOne(xx.ds[..xx.len]); }
      len := Big2StrOrig(xx, base, buf, off, n2, hbase, trim);
    } else {
      len := Big2StrKaratsuba(cache, xx, base, buf, off, n1, n2, hbase, trim);
    }
    xx.Resize(0);
  }

  /** rb_big2str0 on a bignum. n2 is what big2str_find_n1 estimates: enough digits for x. A radix
      outside 2 to 36 is an error except for zero, whatever the estimate. */
  method Big2Str0(cache: PowerCache, x: Bignum, base: int, trim: bool, n2: nat) returns (ok: bool, ss: string)
    requires cache.Valid() && x.Valid() && x.Normal() && {x, x.ds as object} !! cache.Repr
    requires 2 <= base <= 36 ==> x.Mag() < Pow(base, n2)
    modifies cache
    ensures cache.Valid() && fresh(cache.Repr - old(cache.Repr))
    ensures ok <==> x.Mag() == 0 || 2 <= base <= 36
    ensures x.Mag() == 0 ==> ss == "0"
    ensures ok && x.Mag() != 0 && trim ==> ss == Text(x.Int(), base)
    ensures ok && x.Mag() != 0 ==>
              var t := if trim && x.sign then ss else if |ss| > 0 then ss[1..] else "";
              Writes(t, base, x.Mag()) && if trim then t != "" && t[0] != '0' else |t| == n2
    ensures ok && x.Mag() != 0 && !(trim && x.sign) ==> |ss| > 0 && ss[0] == if x.sign then '+' else '-'
    ensures ok && x.Mag() != 0 && !trim ==> ss == [if x.sign then '+' else '-'] + Printed(x.Mag(), base, n2)
  {
    hide Val, Pow, Printed, Canonical, PowerCache.Valid, Writes;
    var z := x.IsZero();
    if z { return true, "0"; }
    if base < 2 || 36 < base { return false, ""; }
    var n1 := (n2 + 1) / 2;
    var buf := new char[n2 + 1];
    buf[0] := if x.sign then '+' else '-';
    var off := if trim && x.sign then 0 else 1;
    var hbase := base * base;
    SquareTwice(base);
    hbase := hbase * hbase;
    var len := PrintCopy(cache, x, base, buf, off, n1, n2, hbase, trim);
    TrimPrinted(x.Mag(), base, n2);
    ok, ss := true, buf[..off + len];
    assert off == 1 ==> buf[..1] == [buf[0]];
    assert ss == buf[..off] + buf[off..off + len];
    ghost var t := if off == 0 then ss else ss[1..];
    assert t == buf[off..off + len];
    if trim {
      CanonicalFacts(x.Mag(), base);
    } else {
      PrintedWrites(x.Mag(), base, n2);
    }
  }

  lemma SquareTwice(base: nat)
    requires 2 <= base <= 36
    ensures (base * base) * (base * base) == Pow(base, 4) < BIGRAD
  {
    assert Pow(base, 0) == 1 && Pow(base, 1) == base;
    assert Pow(base, 2) == base * base && Pow(base, 3) == base * (base * base);
    MulAssoc(base, base, base * base);
    MulLe(base, 36, base);
    MulLe(base * base, 1296, base * base);
  }
}
