/** bigdivrem and bigdivmod of bignum.c: normalising, dividing and undoing the normalisation. */
module BigDivide {
  import opened Digits
  import opened Arith
  import opened Bignums
  import opened BigArith
  import opened LongDivision

  /** The number of leading zero bits of the divisor's top digit. */
  method LeadingZeros(top: Digit) returns (dd: nat)
    requires top != 0
    ensures dd < BITSPERDIG
    ensures BIGRAD <= 2 * (top * Pow2(dd)) < 2 * BIGRAD
  {
    dd := 0;
    var q := top;
    assert Pow2(0) == 1;
    while q < BIGRAD / 2
      invariant q == top * Pow2(dd) && 0 < q < BIGRAD
      decreases BIGRAD - q
    {
      MulAssoc(2, top, Pow2(dd));
      assert Pow2(dd + 1) == 2 * Pow2(dd);
      q := 2 * q;
      dd := dd + 1;
    }
    if dd >= BITSPERDIG {
      Pow2Digit();
      Pow2Add(BITSPERDIG, dd - BITSPERDIG);
      MulLe(1, Pow2(dd - BITSPERDIG), BIGRAD);
      MulLe(1, top, Pow2(dd));
    }
  }

  /** Shifts n digits left by dd bits into another buffer and returns what was shifted out. */
  method ShiftUp(src: array<Digit>, dst: array<Digit>, n: nat, dd: nat) returns (t2: nat)
    requires src != dst && n <= src.Length && n <= dst.Length && dd < BITSPERDIG
    modifies dst
    ensures Val(dst[..n]) + Power(n) * t2 == Pow2(dd) * Val(src[..n]) && t2 < Pow2(dd)
    ensures dst[n..] == old(dst[n..])
  {
    hide Val, Columns, Pow2;
    ghost var xs := src[..n];
    ghost var p := Pow2(dd);
    Pow2Split(dd);
    MulLe(1, Pow2(BITSPERDIG - dd), p);
    var j := 0;
    t2 := 0;
    ColumnsStart(dst[..], [], xs, p);
    while j < n
      invariant 0 <= j <= n && 0 <= t2 < p
      invariant Columns(dst[..], [], xs, p, j, t2)
      invariant dst[n..] == old(dst[n..])
      modifies dst
    {
      ghost var before, t20 := dst[..], t2;
      ShiftFits(src[j], p, t2);
      t2 := t2 + src[j] * Pow2(dd);
      dst[j] := t2 % BIGRAD;
      t2 := t2 / BIGRAD;
      ColumnsStep(before, dst[..], [], xs, p, j, t20, t2);
      j := j + 1;
    }
    ColumnsUpto(dst[..], xs, p, n, t2);
    assert dst[..][..n] == dst[..n];
  }

  lemma ColumnsUpto(z: seq<Digit>, x: seq<Digit>, c: int, n: nat, num: int)
    requires n <= |z| && |x| == n && Columns(z, [], x, c, n, num)
    ensures Val(z[..n]) + Power(n) * num == c * Val(x)
  {
    assert Upto(x, n) == x && Upto([], n) == [];
  }

  /** Shifts the low n digits right by dd bits in place, when no bit is lost. */
  method ShiftDown(zds: array<Digit>, n: nat, dd: nat, ghost v: nat)
    requires n <= zds.Length && dd < BITSPERDIG && Val(zds[..n]) == Pow2(dd) * v
    modifies zds
    ensures Val(zds[..n]) == v
  {
    hide Val, Twos, ShiftedDown, Pow2;
    ghost var z0, D, E := zds[..n], Pow2(dd), Pow2(BITSPERDIG - dd);
    Pow2Split(dd);
    var t2 := 0;
    var i := n;
    ShiftedDownStart(z0, D, E, false);
    while i > 0
      invariant 0 <= i <= n && 0 <= t2 < BIGRAD * BIGRAD
      invariant t2 == BIGRAD * SignDigit(z0, i, false)
      invariant zds[..i] == z0[..i]
      invariant ShiftedDown(zds[..n], z0, i, D, false)
      modifies zds
    {
      ghost var before := zds[..n];
      i := i - 1;
      assert zds[i] == z0[i];
      t2 := (t2 + zds[i]) / Pow2(dd);
      var q := zds[i];
      zds[i] := t2 % BIGRAD;
      t2 := BIGRAD * q;
      ShiftedDownStep(before, zds[..n], z0, i, D, E, false);
    }
    ShiftedDownExact(zds[..n], z0, D, v);
  }

  lemma ShiftedDownExact(z: seq<Digit>, z0: seq<Digit>, D: nat, v: nat)
    requires |z| == |z0| && D > 0 && ShiftedDown(z, z0, 0, D, false) && Val(z0) == D * v
    ensures Val(z) == v
  {
    hide Twos, Val;
    assert z[0..] == z && z0[0..] == z0;
    TwosVal(z, false);
    TwosVal(z0, false);
    DivMod(SignDigit(z0, 0, false), D);
    ExactPart(D, Val(z), SignDigit(z0, 0, false) % D, v);
  }

  lemma ExactPart(D: nat, a: nat, m: nat, v: nat)
    requires m < D && D * a + m == D * v
    ensures a == v
  {
    MulSub(D, v, a);
    if v > a {
      MulLe(1, v - a, D);
    } else if v < a {
      MulLe(v - a, -1, D);
    }
  }

  /** Digits i.. of z are the quotient of digits i.. of z0 by dd, with remainder t. */
  ghost predicate ShortDivided(z: seq<Digit>, z0: seq<Digit>, i: nat, dd: nat, t: nat)
    requires i <= |z| == |z0|
  {
    t < dd && Val(z0[i..]) == Val(z[i..]) * dd + t
  }

  lemma ShortDividedStep(z: seq<Digit>, z': seq<Digit>, z0: seq<Digit>, i: nat, dd: nat, t: nat, t2: nat)
    requires i < |z| == |z'| == |z0| && dd > 0
    requires ShortDivided(z, z0, i + 1, dd, t) && z'[i + 1..] == z[i + 1..]
    requires BIGRAD * t + z0[i] == z'[i] * dd + t2 && t2 < dd
    ensures ShortDivided(z', z0, i, dd, t2)
  {
    hide Val;
    HeadOf(z0, i);
    HeadOf(z', i);
    var above := Val(z[i + 1..]);
    MulAdd(dd, z'[i], BIGRAD * above);
    MulAssoc(BIGRAD, above, dd);
  }

  /** One step of short division; the quotient fits a digit. */
  method DivideTwoDigits(t: nat, d: Digit, dd: Digit) returns (q: Digit, r: nat)
    requires t < dd
    ensures r < dd && BIGRAD * t + d == q * dd + r
  {
    var t2 := BIGRAD * t + d;
    MulLe(t + 1, dd, BIGRAD);
    DivLess(t2, dd, BIGRAD);
    DivMod(t2, dd);
    q, r := t2 / dd, t2 % dd;
  }

  /** Division by one digit, from the top down. */
  method ShortDivide(zds: array<Digit>, n: nat, dd: Digit) returns (t2: nat)
    requires n <= zds.Length && dd != 0
    modifies zds
    ensures t2 < dd
    ensures old(Val(zds[..n])) == Val(zds[..n]) * dd + t2
  {
    hide Val, ShortDivided;
    ghost var z0 := zds[..n];
    t2 := 0;
    var i := n;
    ShortDividedStart(z0, dd);
    while i > 0
      invariant 0 <= i <= n && 0 <= t2 < dd
      invariant zds[..i] == z0[..i]
      invariant ShortDivided(zds[..n], z0, i, dd, t2)
      modifies zds
    {
      ghost var before, t := zds[..n], t2;
      i := i - 1;
      assert zds[i] == z0[i];
      zds[i], t2 := DivideTwoDigits(t2, zds[i], dd);
      ShortDividedStep(before, zds[..n], z0, i, dd, t, t2);
    }
    ShortDividedDone(zds[..n], z0, dd, t2);
  }

  lemma ShortDividedStart(z: seq<Digit>, dd: nat)
    requires dd > 0
    ensures ShortDivided(z, z, |z|, dd, 0)
  {
    assert z[|z|..] == [];
  }

  lemma ShortDividedDone(z: seq<Digit>, z0: seq<Digit>, dd: nat, t: nat)
    requires |z| == |z0| && ShortDivided(z, z0, 0, dd, t)
    ensures Val(z0) == Val(z) * dd + t && t < dd
  {
    assert z[0..] == z && z0[0..] == z0;
  }

  /** Shifting the divisor left by its leading zero bits loses nothing and sets the top bit. */
  lemma NormalizedDivisor(y: seq<Digit>, v: seq<Digit>, dd: nat, t: nat)
    requires 1 <= |y| == |v| && dd < BITSPERDIG
    requires BIGRAD <= 2 * (y[|y| - 1] * Pow2(dd)) < 2 * BIGRAD
    requires Val(v) + Power(|y|) * t == Pow2(dd) * Val(y)
    ensures t == 0 && Val(v) == Pow2(dd) * Val(y) && 2 * v[|v| - 1] >= BIGRAD
  {
    hide Val, Pow2, Power;
    var n := |y| - 1;
    Pow2Split(dd);
    TopOne(y, n);
    TopOne(v, n);
    PowerStep(n);
    NormalizedTop(Val(y), Val(v), Val(y[..n]), Val(v[..n]), Power(n), y[n], v[n], Pow2(dd), Pow2(BITSPERDIG - dd), t);
  }

  lemma NormalizedTop(Y: nat, V: nat, low: nat, vlow: nat, p: nat, top: nat, vtop: Digit, D: nat, E: nat, t: nat)
    requires Y == low + p * top && low < p && V == vlow + p * vtop && vlow < p
    requires D > 0 && D * E == BIGRAD <= 2 * (top * D) < 2 * BIGRAD && V + (BIGRAD * p) * t == D * Y
    ensures t == 0 && 2 * vtop >= BIGRAD
  {
    // top < E, so D * (top + 1) <= BIGRAD
    if top >= E { MulLe(E, top, D); }
    MulLe(top + 1, E, D);
    ShiftedTop(Y, low, p, top, D);
    if t >= 1 { MulLe(1, t, BIGRAD * p); }
    if 2 * vtop < BIGRAD {
      MulLe(vtop + 1, top * D, p);
      MulAdd(p, vtop, 1);
    }
  }

  lemma ShiftedTop(Y: nat, low: nat, p: nat, top: nat, D: nat)
    requires Y == low + p * top && low < p && D > 0 && D * (top + 1) <= BIGRAD
    ensures D * Y < BIGRAD * p && D * Y >= p * (top * D)
  {
    MulAdd(p, top, 1);
    MulLt(Y, p * (top + 1), D);
    MulAssoc(D, p, top + 1);
    MulLe(D * (top + 1), BIGRAD, p);
    MulAdd(D, low, p * top);
    MulAssoc(D, p, top);
  }

  /** With a zero or small digit on top, the leading digits of the dividend are below the divisor. */
  lemma TopBelow(a: seq<Digit>, b: seq<Digit>)
    requires 1 <= |a| == |b| && a[|a| - 1] < b[|b| - 1]
    ensures Val(a) < Val(b)
  {
    LargerAt(b, a, |a| - 1);
  }

  /** The digits as they are, under a zero. */
  method CopyDigits(src: array<Digit>, dst: array<Digit>, n: nat)
    requires src != dst && n <= src.Length && n < dst.Length
    modifies dst
    ensures dst[n] == 0 && Val(dst[..n + 1]) == Val(src[..n]) && dst[n + 1..] == old(dst[n + 1..])
  {
    dst[n] := 0;
    var j := n;
    while j > 0
      invariant 0 <= j <= n && dst[n] == 0
      invariant forall k :: j <= k < n ==> dst[k] == src[k]
      invariant dst[n + 1..] == old(dst[n + 1..])
    {
      j := j - 1;
      dst[j] := src[j];
    }
    assert dst[..n + 1] == src[..n] + [0];
    ValSnoc(src[..n], 0);
  }

  /** Copies (or shifts) the operands so that the divisor's top bit is set. */
  method NormalizeOperands(x: Bignum, y: Bignum, zds: array<Digit>) returns (yds: array<Digit>, dd: nat)
    requires x.Valid() && y.Valid() && 2 <= y.len <= x.len && y.ds[y.len - 1] != 0
    requires zds.Length == (if x.len == y.len then x.len + 2 else x.len + 1) && zds != x.ds && zds != y.ds
    requires x.len == y.len ==> zds[x.len + 1] == 0
    modifies zds
    ensures yds != zds && yds.Length >= y.len && dd < BITSPERDIG && 2 * yds[y.len - 1] >= BIGRAD
    ensures yds == y.ds || fresh(yds)
    ensures Val(yds[..y.len]) == Pow2(dd) * old(y.Mag())
    ensures Val(zds[..]) == Pow2(dd) * old(x.Mag())
    ensures Val(zds[zds.Length - y.len..]) < Val(yds[..y.len])
  {
    hide Val, Pow2, Power;
    var nx, ny := x.len, y.len;
    dd := LeadingZeros(y.ds[ny - 1]);
    if dd != 0 {
      yds := ShiftOperands(x, y, zds, dd);
    } else {
      CopyDigits(x.ds, zds, nx);
      yds := y.ds;
      assert Pow2(0) == 1 by { Pow2Half(0); }
    }
    TrimValue(zds[..], nx + 1);
    assert zds[..][..nx + 1] == zds[..nx + 1];
    TopBelow(zds[zds.Length - ny..], yds[..ny]);
  }

  /** The copies shifted up so that the divisor's top bit is set. */
  method ShiftOperands(x: Bignum, y: Bignum, zds: array<Digit>, dd: nat) returns (yds: array<Digit>)
    requires x.Valid() && y.Valid() && 2 <= y.len <= x.len < zds.Length && zds != x.ds && zds != y.ds
    requires dd < BITSPERDIG && BIGRAD <= 2 * (y.ds[y.len - 1] * Pow2(dd)) < 2 * BIGRAD
    modifies zds
    ensures fresh(yds) && yds.Length >= y.len && 2 * yds[y.len - 1] >= BIGRAD
    ensures Val(yds[..y.len]) == Pow2(dd) * old(y.Mag())
    ensures Val(zds[..x.len + 1]) == Pow2(dd) * old(x.Mag()) && zds[x.len] < yds[y.len - 1]
    ensures zds[x.len + 1..] == old(zds[x.len + 1..])
  {
    hide Val, Pow2, Power;
    Pow2Half(dd);
    var yy := y.Clone();
    var t := ShiftUp(y.ds, yy.ds, y.len, dd);
    yds := yy.ds;
    NormalizedDivisor(y.ds[..y.len], yds[..y.len], dd, t);
    t := ShiftUp(x.ds, zds, x.len, dd);
    zds[x.len] := t;
    assert zds[..x.len + 1] == zds[..x.len] + [t];
    ValSnoc(zds[..x.len], t);
  }

  /** A normalised dividend leaves at most one leading zero in the quotient. */
  lemma QuotientLength(X: nat, Y: nat, Q: nat, R: nat, nx: nat, ny: nat)
    requires 1 <= ny < nx && X == Q * Y + R && R < Y < Power(ny) && Power(nx - 1) <= X
    ensures Q >= Power(nx - 1 - ny)
  {
    hide Power;
    var p := Power(nx - 1 - ny);
    if Q < p {
      MulLe(Q + 1, p, Y);
      MulAdd(Y, Q, 1);
      MulLe(Y, Power(ny), p);
      PowerAdd(ny, nx - 1 - ny);
    }
  }

  method MoveDown(ds: array<Digit>, ny: nat, j: nat)
    requires ny + j == ds.Length
    modifies ds
    ensures ds[..j] == old(ds[..])[ny..]
  {
    var i := 0;
    while i < j
      invariant 0 <= i <= j
      invariant forall k :: 0 <= k < i ==> ds[k] == old(ds[k + ny])
      invariant forall k :: i <= k < ds.Length ==> ds[k] == old(ds[k])
    {
      ds[i] := ds[i + ny];
      i := i + 1;
    }
  }

  /** The quotient, moved down from digits ny.. of the division buffer. */
  method TakeQuotient(z: Bignum, ny: nat) returns (q: Bignum)
    requires z.Valid() && ny < z.len == z.ds.Length
    ensures fresh(q) && fresh(q.ds) && q.Valid() && q.sign == z.sign
    ensures q.Mag() == Val(z.ds[ny..])
    ensures q.len + ny <= z.len && (z.len - ny > 2 && q.Mag() >= Power(z.len - ny - 2) ==> q.Normal())
    ensures z.len - ny == 2 ==> q.Normal()
  {
    hide Val, Power;
    q := z.Clone();
    var j := z.len - ny;
    assert q.ds[..] == z.ds[..];
    assert z.ds[..][ny..] == z.ds[ny..];
    MoveDown(q.ds, ny, j);
    var i := j;
    if q.ds[i - 1] == 0 {
      i := i - 1;
      TrimValue(q.ds[..j], i);
      assert q.ds[..j][..i] == q.ds[..i];
    }
    q.len := i;
    if i > 1 && q.ds[i - 1] == 0 && i == j - 1 {
      ZeroTop(q.ds[..i]);
    }
  }

  lemma ZeroTop(z: seq<Digit>)
    requires |z| >= 1 && z[|z| - 1] == 0
    ensures Val(z) < Power(|z| - 1)
  {
    TrimValue(z, |z| - 1);
    ValBound(z[..|z| - 1]);
  }

  /** After a shift of less than a digit at most one leading zero digit appears. */
  lemma NormalAfterShift(z0: seq<Digit>, z: seq<Digit>, D: nat)
    requires |z| == |z0| > 2 && 0 < D <= BIGRAD && Val(z0) == D * Val(z)
    requires z0[|z0| - 1] != 0 && z[|z| - 1] == 0
    ensures z[|z| - 2] != 0
  {
    hide Val, Power;
    var n := |z|;
    if z[n - 2] == 0 {
      TrimValue(z, n - 2);
      ValBound(z[..n - 2]);
      ValTop(z0, n - 1);
      MulLt(Val(z), Power(n - 2), D);
      MulLe(D, BIGRAD, Power(n - 2));
      PowerStep(n - 2);
    }
  }

  /** The high zero digits but for the lowest one skipped. */
  method SkipHighZeros(ds: array<Digit>, ny0: nat) returns (ny: nat)
    requires 1 <= ny0 <= ds.Length
    ensures 1 <= ny <= ny0 && Val(ds[..ny]) == Val(ds[..ny0]) && (ny > 1 ==> ds[ny - 1] != 0)
  {
    hide Val;
    ny := ny0 - 1;
    while ny != 0 && ds[ny] == 0
      invariant 0 <= ny < ny0
      invariant forall k :: ny < k < ny0 ==> ds[k] == 0
    {
      ny := ny - 1;
    }
    ny := ny + 1;
    TrimValue(ds[..ny0], ny);
    assert ds[..ny0][..ny] == ds[..ny];
  }

  /** The remainder: the low digits of the division buffer with the normalising shift undone. */
  method TakeRemainder(z: Bignum, ny0: nat, dd: nat, sign: bool, ghost v: nat) returns (r: Bignum)
    requires z.Valid() && 1 <= ny0 < z.len == z.ds.Length && dd < BITSPERDIG
    requires Val(z.ds[..ny0]) == Pow2(dd) * v
    ensures fresh(r) && fresh(r.ds) && r.Valid() && r.sign == sign && r.Normal() && r.len <= ny0
    ensures r.Mag() == v
  {
    hide Val, Power, Pow2;
    r := z.Clone();
    assert r.ds[..ny0] == z.ds[..ny0];
    var ny := SkipHighZeros(r.ds, ny0);
    ghost var z0 := r.ds[..ny];
    Pow2Half(dd);
    if dd != 0 {
      ShiftDown(r.ds, ny, dd, v);
    }
    if r.ds[ny - 1] == 0 {
      ghost var shifted := r.ds[..ny];
      TrimValue(shifted, ny - 1);
      assert shifted[..ny - 1] == r.ds[..ny - 1];
      if ny > 2 {
        NormalAfterShift(z0, shifted, Pow2(dd));
      }
      ny := ny - 1;
    }
    r.len := ny;
    r.sign := sign;
  }

  lemma PowerStep(n: nat)
    ensures Power(n + 1) == BIGRAD * Power(n)
  {
  }

  /** Dividing both sides by the normalising factor. */
  lemma Unscale(X: nat, Y: nat, Q: nat, R: nat, D: nat) returns (r: nat)
    requires D > 0 && D * X == Q * (D * Y) + R && R < D * Y
    ensures R == D * r && X == Q * Y + r && r < Y
  {
    MulAssoc(Q, D, Y);
    MulSub(D, X, Q * Y);
    var r0 := X - Q * Y;
    if r0 < 0 { MulLe(r0, -1, D); }
    r := r0;
    if r >= Y { MulLe(Y, r, D); }
  }

  /** The Algorithm D path of bigdivrem, for divisors of two digits or more. */
  method LongDivide(x: Bignum, y: Bignum) returns (q: Bignum, r: Bignum)
    requires x.Valid() && y.Valid() && 2 <= y.len <= x.len && y.ds[y.len - 1] != 0 && x.Normal()
    ensures fresh(q) && fresh(q.ds) && q.Valid() && fresh(r) && fresh(r.ds) && r.Valid() && q != r && q.ds != r.ds
    ensures x.Mag() == q.Mag() * y.Mag() + r.Mag() && r.Mag() < y.Mag()
    ensures q.sign == (x.sign == y.sign) && r.sign == x.sign && q.Normal() && r.Normal()
  {
    hide Val, Power, Pow2;
    var nx, ny := x.len, y.len;
    var z := new Bignum(if nx == ny then nx + 2 else nx + 1, x.sign == y.sign);
    if nx == ny { z.ds[nx + 1] := 0; }
    var yds, dd := NormalizeOperands(x, y, z.ds);
    ghost var X, Y, D := x.Mag(), y.Mag(), Pow2(dd);
    DivRem1(z.ds, yds, nx, ny);
    ghost var R := Unscale(X, Y, Val(z.ds[ny..]), Val(z.ds[..ny]), D);
    q := TakeQuotient(z, ny);
    r := TakeRemainder(z, ny, dd, x.sign, R);
    if nx > ny {
      ValTop(x.ds[..nx], nx - 1);
      ValBound(y.ds[..ny]);
      QuotientLength(X, Y, q.Mag(), r.Mag(), nx, ny);
      assert nx - ny == 1 ==> q.Normal() by {
        if nx - ny == 1 { assert z.len - ny == 2; }
      }
    }
  }

  /** bigdivrem: division truncated towards zero. A zero divisor is reported; otherwise the
      remainder has the dividend's sign, and is the dividend itself when that is the smaller. */
  method BigDivRem(x: Bignum, y: Bignum) returns (zerodiv: bool, q: Bignum, r: Bignum)
    requires x.Valid() && x.Normal() && y.Valid() && y.Normal()
    ensures zerodiv <==> y.Mag() == 0
    ensures !zerodiv ==> fresh(q) && fresh(q.ds) && q.Valid() && r.Valid() && q != r && q.ds != r.ds
    ensures !zerodiv ==> r == x || (fresh(r) && fresh(r.ds))
    ensures !zerodiv ==> x.Int() == q.Int() * y.Int() + r.Int()
    ensures !zerodiv ==> x.Mag() == q.Mag() * y.Mag() + r.Mag() && r.Mag() < y.Mag()
    ensures !zerodiv ==> r.sign == x.sign && r.Normal() && (y.len != 1 ==> q.Normal())
    ensures !zerodiv ==> (q.sign == (x.sign == y.sign)) || (q.Mag() == 0 && q.sign && q.Normal())
  {
    hide Val, Power;
    var nx, ny := x.len, y.len;
    zerodiv := y.IsZero();
    q, r := x, x;
    if zerodiv { return; }
    assert ny > 0 by { ValOne(y.ds[..ny]); }
    TopNonZero(y.ds[..ny]);
    if nx < ny || (nx == ny && x.ds[nx - 1] < y.ds[ny - 1]) {
      DividendSmaller(x.ds[..nx], y.ds[..ny]);
      q := new Bignum.FromDigit(0, true);
      ZeroQuotient(x.sign, y.sign, x.Mag(), y.Mag());
      return;
    }
    if ny == 1 {
      ValOne(y.ds[..ny]);
      var z := x.Clone();
      assert z.ds[..nx] == x.ds[..nx];
      var t2 := ShortDivide(z.ds, nx, y.ds[0]);
      z.sign := x.sign == y.sign;
      r := new Bignum.FromDigit(t2, x.sign);
      q := z;
    } else {
      q, r := LongDivide(x, y);
    }
    TruncatedDivision(x.sign, y.sign, x.Mag(), y.Mag(), q.Mag(), r.Mag());
  }

  lemma TopNonZero(y: seq<Digit>)
    requires |y| > 0 && Val(y) > 0 && (|y| <= 1 || y[|y| - 1] != 0)
    ensures y[|y| - 1] != 0
  {
    ValOne(y);
  }

  lemma DividendSmaller(x: seq<Digit>, y: seq<Digit>)
    requires |y| > 0 && y[|y| - 1] != 0
    requires |x| < |y| || (|x| == |y| && x[|x| - 1] < y[|y| - 1])
    ensures Val(x) < Val(y)
  {
    if |x| < |y| {
      ValTop(y, |y| - 1);
      ValBound(x);
      PowerMonotone(|x|, |y| - 1);
    } else {
      TopBelow(x, y);
    }
  }

  lemma ZeroQuotient(s: bool, t: bool, x: nat, y: nat)
    ensures Signed(s, x) == Signed(true, 0) * Signed(t, y) + Signed(s, x)
  {
  }

  lemma TruncatedDivision(s: bool, t: bool, x: nat, y: nat, q: nat, r: nat)
    requires x == q * y + r
    ensures Signed(s, x) == Signed(s == t, q) * Signed(t, y) + Signed(s, r)
  {
  }

  /** bigdivmod: division rounded towards minus infinity. The remainder is zero or has the
      divisor's sign, and is smaller than it in magnitude. */
  method BigDivMod(x: Bignum, y: Bignum) returns (zerodiv: bool, q: Bignum, r: Bignum)
    requires x.Valid() && x.Normal() && y.Valid() && y.Normal()
    ensures zerodiv <==> y.Mag() == 0
    ensures !zerodiv ==> fresh(q) && fresh(q.ds) && q.Valid() && r.Valid() && q != r && q.ds != r.ds
    ensures !zerodiv ==> r == x || (fresh(r) && fresh(r.ds))
    ensures !zerodiv ==> x.Int() == q.Int() * y.Int() + r.Int()
    ensures !zerodiv ==> r.Mag() < y.Mag() && (r.Mag() == 0 || r.sign == y.sign)
    ensures !zerodiv && x.sign == y.sign ==> q.sign && r.Normal() && r.sign == x.sign && (y.len != 1 ==> q.Normal())
  {
    hide Val;
    var mod: Bignum;
    zerodiv, q, mod := BigDivRem(x, y);
    r := mod;
    if zerodiv { return; }
    var z := mod.IsZero();
    if x.sign != y.sign && !z {
      ghost var Q, M := q.Int(), mod.Int();
      q, r := FloorCorrect(y, q, mod);
      FloorStep(x.Int(), y.Int(), Q, M);
    }
  }

  /** The correction bigdivmod makes when the signs differ and the remainder is not zero. */
  method FloorCorrect(y: Bignum, q0: Bignum, mod: Bignum) returns (q: Bignum, r: Bignum)
    requires y.Valid() && y.Normal() && q0.Valid() && mod.Valid() && mod.Normal()
    requires !q0.sign || q0.Normal()
    requires mod.sign != y.sign && 0 < mod.Mag() < y.Mag()
    ensures fresh(q) && fresh(q.ds) && q.Valid() && fresh(r) && fresh(r.ds) && r.Valid() && q != r && q.ds != r.ds
    ensures q.Int() == q0.Int() - 1 && r.Int() == mod.Int() + y.Int()
    ensures 0 < r.Mag() < y.Mag() && r.sign == y.sign
  {
    hide Val;
    var one := new Bignum.FromDigit(1, true);
    q := BigAdd(q0, one, false);
    r := BigAdd(mod, y, true);
  }

  lemma FloorStep(x: int, y: int, q: int, m: int)
    requires x == q * y + m
    ensures x == (q - 1) * y + (m + y)
  {
  }
}
