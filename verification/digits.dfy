/** Little-endian base-2^32 magnitudes: the digit buffers of bignum.c and the
    natural number each of them denotes. */
module Digits {
  import opened Arith

  const BITSPERDIG: nat := 32
  const BIGRAD: int := 0x1_0000_0000

  /** A BDIGIT. */
  type Digit = d: int | 0 <= d < BIGRAD

  /** BIGRAD to the power n. */
  function Power(n: nat): (p: nat)
    ensures p > 0
  {
    if n == 0 then 1 else BIGRAD * Power(n - 1)
  }

  /** The natural number denoted by a digit buffer, least significant digit first. */
  function Val(s: seq<Digit>): nat {
    if s == [] then 0 else s[0] + BIGRAD * Val(s[1..])
  }

  lemma {:induction false} PowerAdd(m: nat, n: nat)
    ensures Power(m + n) == Power(m) * Power(n)
  {
    if m != 0 {
      PowerAdd(m - 1, n);
      assert Power(m) * Power(n) == BIGRAD * (Power(m - 1) * Power(n));
    }
  }

  lemma {:induction false} ValConcat(a: seq<Digit>, b: seq<Digit>)
    ensures Val(a + b) == Val(a) + Power(|a|) * Val(b)
  {
    if a == [] {
      assert a + b == b;
    } else {
      assert (a + b)[1..] == a[1..] + b;
      ValConcat(a[1..], b);
      assert Power(|a|) * Val(b) == BIGRAD * (Power(|a| - 1) * Val(b));
    }
  }

  /** Splitting a buffer at k. */
  lemma ValSplit(s: seq<Digit>, k: nat)
    requires k <= |s|
    ensures Val(s) == Val(s[..k]) + Power(k) * Val(s[k..])
  {
    assert s == s[..k] + s[k..];
    ValConcat(s[..k], s[k..]);
  }

  /** Appending one digit on the most significant side. */
  lemma ValSnoc(a: seq<Digit>, d: Digit)
    ensures Val(a + [d]) == Val(a) + Power(|a|) * d
  {
    ValConcat(a, [d]);
    assert Val([d]) == d;
  }

  /** One more digit of a window that starts at off. */
  lemma ValWindow(s: seq<Digit>, off: nat, i: nat)
    requires off + i < |s|
    ensures Val(s[off..off + i + 1]) == Val(s[off..off + i]) + Power(i) * s[off + i]
  {
    assert s[off..off + i + 1] == s[off..off + i] + [s[off + i]];
    ValSnoc(s[off..off + i], s[off + i]);
  }

  lemma {:induction false} ValBound(s: seq<Digit>)
    ensures Val(s) < Power(|s|)
  {
    if s != [] {
      ValBound(s[1..]);
    }
  }

  lemma ValOne(s: seq<Digit>)
    ensures |s| == 0 ==> Val(s) == 0
    ensures |s| == 1 ==> Val(s) == s[0]
  {
  }

  lemma {:induction false} ValZero(s: seq<Digit>)
    requires forall i :: 0 <= i < |s| ==> s[i] == 0
    ensures Val(s) == 0
  {
    if s != [] {
      ValZero(s[1..]);
    }
  }

  lemma PowerMonotone(m: nat, n: nat)
    requires m <= n
    ensures Power(m) <= Power(n)
  {
    PowerAdd(m, n - m);
    MulLe(1, Power(n - m), Power(m));
  }

  /** A non-zero digit at index k gives at least Power(k). */
  lemma ValTop(s: seq<Digit>, k: nat)
    requires k < |s| && s[k] != 0
    ensures Val(s) >= Power(k)
  {
    ValSplit(s, k);
    assert s[k..] == [s[k]] + s[k + 1..];
    assert Val(s[k..]) >= 1;
    MulLe(1, Val(s[k..]), Power(k));
  }

  /** The digits of s below column i; columns above s are empty. */
  function Upto(s: seq<Digit>, i: nat): seq<Digit> {
    if i <= |s| then s[..i] else s
  }

  function DigitAt(s: seq<Digit>, i: nat): Digit {
    if i < |s| then s[i] else 0
  }

  lemma UptoStep(s: seq<Digit>, i: nat)
    ensures Val(Upto(s, i + 1)) == Val(Upto(s, i)) + Power(i) * DigitAt(s, i)
  {
    if i < |s| {
      assert s[..i + 1] == s[..i] + [s[i]];
      ValSnoc(s[..i], s[i]);
    } else {
      assert s[..|s|] == s;
    }
  }

  /** The running equation of a column loop that computes z = x + c * y from the low end,
      with num to carry (or, when negative, to borrow). */
  ghost predicate Columns(z: seq<Digit>, x: seq<Digit>, y: seq<Digit>, c: int, i: nat, num: int)
    requires i <= |z|
  {
    Val(z[..i]) + Power(i) * num == Val(Upto(x, i)) + c * Val(Upto(y, i))
  }

  lemma ColumnsStart(z: seq<Digit>, x: seq<Digit>, y: seq<Digit>, c: int)
    ensures Columns(z, x, y, c, 0, 0)
  {
  }

  lemma ColumnsStep(z: seq<Digit>, z': seq<Digit>, x: seq<Digit>, y: seq<Digit>, c: int, i: nat, num: int, num': int)
    requires i < |z'| && i <= |z| && z[..i] == z'[..i]
    requires Columns(z, x, y, c, i, num)
    requires DigitAt(x, i) + c * DigitAt(y, i) + num == z'[i] + BIGRAD * num'
    ensures Columns(z', x, y, c, i + 1, num')
  {
    hide Val, DigitAt, Upto;
    var w, xi, yi := Power(i), DigitAt(x, i), DigitAt(y, i);
    UptoStep(x, i);
    UptoStep(y, i);
    assert z'[..i + 1] == z'[..i] + [z'[i]];
    ValSnoc(z'[..i], z'[i]);
    assert Power(i + 1) == BIGRAD * w;
    ColumnSum(w, xi, yi, c, num, z'[i], num');
    MulAdd(c, Val(Upto(y, i)), w * yi);
  }

  lemma ColumnSum(w: nat, x: int, y: int, c: int, num: int, d: int, num': int)
    requires x + c * y + num == d + BIGRAD * num'
    ensures w * d + (BIGRAD * w) * num' == w * x + c * (w * y) + w * num
  {
    MulAdd(w, x + c * y, num);
    MulAdd(w, x, c * y);
    MulAdd(w, d, BIGRAD * num');
    MulAssoc(w, BIGRAD, num');
    MulAssoc(w, c, y);
  }

  /** A column loop that ran over every column of both operands. */
  lemma ColumnsDone(z: seq<Digit>, x: seq<Digit>, y: seq<Digit>, c: int, num: int)
    requires |x| <= |z| && |y| <= |z| && Columns(z, x, y, c, |z|, num)
    ensures Val(z) + Power(|z|) * num == Val(x) + c * Val(y)
  {
    assert z[..|z|] == z && Upto(x, |z|) == x && Upto(y, |z|) == y;
  }

  /** A non-negative difference leaves no borrow. */
  lemma NoBorrow(z: seq<Digit>, num: int, r: nat)
    requires -1 <= num <= 0 && Val(z) + Power(|z|) * num == r
    ensures num == 0 && Val(z) == r
  {
    ValBound(z);
  }

  lemma MulDigits(a: Digit, b: Digit)
    ensures 0 <= a * b <= (BIGRAD - 1) * (BIGRAD - 1)
  {
    MulLe(a, BIGRAD - 1, b);
    MulLe(b, BIGRAD - 1, BIGRAD - 1);
  }

  /** Two to the power n. */
  function Pow2(n: nat): (p: nat)
    ensures p > 0
  {
    if n == 0 then 1 else 2 * Pow2(n - 1)
  }

  lemma {:induction false} Pow2Add(m: nat, n: nat)
    ensures Pow2(m + n) == Pow2(m) * Pow2(n)
  {
    if m != 0 {
      Pow2Add(m - 1, n);
      MulAssoc(2, Pow2(m - 1), Pow2(n));
    }
  }

  /** A digit has BITSPERDIG bits. */
  lemma Pow2Digit()
    ensures Pow2(BITSPERDIG) == BIGRAD
  {
    assert Pow2(8) == 256;
    Pow2Add(8, 8);
    Pow2Add(16, 16);
  }

  /** A shift of up to a digit leaves the complementary power in a digit. */
  lemma Pow2Split(s: nat)
    requires s <= BITSPERDIG
    ensures Pow2(s) * Pow2(BITSPERDIG - s) == BIGRAD
  {
    Pow2Digit();
    Pow2Add(s, BITSPERDIG - s);
  }

  /** A shift below a digit's width is at most half a digit's range. */
  lemma Pow2Half(s: nat)
    requires s < BITSPERDIG
    ensures 2 * Pow2(s) <= BIGRAD && Pow2(s) * Pow2(BITSPERDIG - s) == BIGRAD && (s == 0 ==> Pow2(s) == 1)
  {
    Pow2Split(s);
    var rest := Pow2(BITSPERDIG - s);
    assert rest == 2 * Pow2(BITSPERDIG - s - 1);
    MulLe(2, rest, Pow2(s));
  }

  /** A digit times a shift, plus what the digit below left over, fits two digits. */
  lemma ShiftFits(d: Digit, p: nat, t: nat)
    requires t < p <= BIGRAD
    ensures 0 <= d * p + t < BIGRAD * p && (d * p + t) / BIGRAD < p
  {
    MulLe(d, BIGRAD - 1, p);
    MulSub(p, BIGRAD, 1);
  }

  /** The integer a digit buffer denotes in two's complement: above its top digit come zeros,
      or ones when neg is set. */
  function Twos(s: seq<Digit>, neg: bool): int {
    if s == [] then (if neg then -1 else 0) else s[0] + BIGRAD * Twos(s[1..], neg)
  }

  /** A buffer's digit i, extended by its sign. */
  function SignDigit(s: seq<Digit>, i: nat, neg: bool): Digit {
    if i < |s| then s[i] else if neg then BIGRAD - 1 else 0
  }

  lemma {:induction false} TwosVal(s: seq<Digit>, neg: bool)
    ensures Twos(s, neg) == Val(s) - if neg then Power(|s|) else 0
  {
    if s != [] {
      TwosVal(s[1..], neg);
    }
  }

  /** Digits i.. of a buffer shifted right by a factor D, the rest of digit i still to go. */
  ghost predicate ShiftedDown(z: seq<Digit>, z0: seq<Digit>, i: nat, D: nat, neg: bool)
    requires i <= |z| == |z0| && D > 0
  {
    Twos(z0[i..], neg) == D * Twos(z[i..], neg) + SignDigit(z0, i, neg) % D
  }

  lemma ShiftedDownStart(z: seq<Digit>, D: nat, E: nat, neg: bool)
    requires D > 0 && D * E == BIGRAD
    ensures ShiftedDown(z, z, |z|, D, neg)
  {
    assert z[|z|..] == [];
    assert Twos([], neg) == if neg then -1 else 0;
    if neg { AllOnes(D, E); }
    MulSub(D, 0, 1);
  }

  /** A digit of all ones leaves the largest remainder. */
  lemma AllOnes(D: nat, E: nat)
    requires D > 0 && D * E == BIGRAD
    ensures (BIGRAD - 1) % D == D - 1
  {
    MulSub(D, E, 1);
    MulSub(E, D, 1);
    assert E >= 1 by { if E <= 0 { MulLe(E, 0, D); } }
    DivUnique(BIGRAD - 1, D, E - 1, D - 1);
  }

  /** One step of a right-shift loop: the digit gets the low bits of the digit above. */
  lemma ShiftedDownStep(z: seq<Digit>, z': seq<Digit>, z0: seq<Digit>, i: nat, D: nat, E: nat, neg: bool)
    requires i < |z| == |z'| == |z0| && D > 0 && D * E == BIGRAD
    requires ShiftedDown(z, z0, i + 1, D, neg) && z'[i + 1..] == z[i + 1..]
    requires z'[i] == ((BIGRAD * SignDigit(z0, i + 1, neg) + z0[i]) / D) % BIGRAD
    ensures ShiftedDown(z', z0, i, D, neg)
  {
    hide Twos, SignDigit;
    var above := SignDigit(z0, i + 1, neg);
    TwosHead(z0, i, neg);
    TwosHead(z', i, neg);
    ShiftedDigit(above, z0[i], D, E);
    var rest := Twos(z[i + 1..], neg);
    MulAdd(D, z'[i], BIGRAD * rest);
    MulAssoc(D, BIGRAD, rest);
    MulAdd(D, (above % D) * E, z0[i] / D);
    MulAssoc(D, above % D, E);
    DivMod(z0[i], D);
  }

  lemma TwosHead(z: seq<Digit>, i: nat, neg: bool)
    requires i < |z|
    ensures Twos(z[i..], neg) == z[i] + BIGRAD * Twos(z[i + 1..], neg)
    ensures SignDigit(z, i, neg) == z[i]
  {
    assert z[i..][1..] == z[i + 1..];
  }

  lemma SplitAt(z: seq<Digit>, i: nat, k: nat)
    requires i <= k <= |z|
    ensures Val(z[..k]) == Val(z[..i]) + Power(i) * Val(z[i..k])
  {
    ValSplit(z[..k], i);
    assert z[..k][..i] == z[..i] && z[..k][i..] == z[i..k];
  }

  lemma HeadOf(z: seq<Digit>, i: nat)
    requires i < |z|
    ensures Val(z[i..]) == z[i] + BIGRAD * Val(z[i + 1..])
  {
    assert z[i..][1..] == z[i + 1..];
  }

  /** The low digit of two digits shifted right. */
  lemma ShiftedDigit(a: nat, d: Digit, D: nat, E: nat)
    requires D > 0 && D * E == BIGRAD
    ensures ((BIGRAD * a + d) / D) % BIGRAD == (a % D) * E + d / D
  {
    DivMod(a, D);
    DivMod(d, D);
    ShiftedParts(a, d, D, E, a / D, a % D, d / D, d % D);
    LowDigit(BIGRAD * a + d, D, E * a + d / D, d % D, a / D, (a % D) * E + d / D);
  }

  lemma LowDigit(u: nat, D: nat, m: nat, r: nat, q: nat, low: nat)
    requires D > 0 && u == m * D + r && r < D && m == q * BIGRAD + low && low < BIGRAD
    ensures (u / D) % BIGRAD == low
  {
    DivUnique(u, D, m, r);
    DivUnique(m, BIGRAD, q, low);
  }

  lemma ShiftedParts(a: nat, d: Digit, D: nat, E: nat, q: nat, r: nat, dq: nat, dr: nat)
    requires D * E == BIGRAD && a == q * D + r && r < D && d == dq * D + dr && dr < D
    ensures BIGRAD * a + d == (E * a + dq) * D + dr
    ensures E * a + dq == q * BIGRAD + (r * E + dq)
    ensures r * E + dq < BIGRAD
  {
    MulAdd(D, E * a, dq);
    MulAssoc(D, E, a);
    MulAdd(E, q * D, r);
    MulAssoc(E, q, D);
    MulLe(r + 1, D, E);
    MulAdd(E, r, 1);
    if dq >= E {
      MulLe(E, dq, D);
    }
  }

  lemma {:induction false} PowerIsPow2(n: nat)
    ensures Power(n) == Pow2(BITSPERDIG * n)
  {
    if n > 0 {
      PowerIsPow2(n - 1);
      Pow2Add(BITSPERDIG, BITSPERDIG * (n - 1));
      Pow2Digit();
    }
  }
}
