/** bigsqr and rb_big_pow of bignum.c: half-split squaring and square-and-multiply. */
module BigPower {
  import opened Digits
  import opened Arith
  import opened Bignums
  import opened BigArith

  /** 4000 / BITSPERDIG: below this many digits squaring is schoolbook multiplication. */
  const SQUARE_SPLIT: nat := 125

  /** The digits of a truncated number: a magnitude below Power(n) needs at most n of them. */
  lemma TruncatedLength(z: seq<Digit>, n: nat)
    requires |z| <= 1 || z[|z| - 1] != 0
    requires Val(z) < Power(n) && n >= 1
    ensures |z| <= n
  {
    if |z| > n {
      ValTop(z, |z| - 1);
      PowerMonotone(n, |z| - 1);
    }
  }

  /** The cross term a * b at column |b| never reaches past a * a at column 2 * |b|. */
  lemma CrossTermFits(a: seq<Digit>, b: seq<Digit>, a2: seq<Digit>, ab: seq<Digit>)
    requires |b| >= 1
    requires Val(a2) == Val(a) * Val(a) && Val(ab) == Val(a) * Val(b)
    requires |a2| >= 1 && (|ab| <= 1 || ab[|ab| - 1] != 0)
    ensures |ab| <= |b| + |a2|
  {
    hide Val, Power;
    if Val(a) == 0 {
      PowerMonotone(0, 1);
      PowerZero();
      TruncatedLength(ab, 1);
    } else {
      ValBound(b);
      ValBound(a2);
      MulLe(1, Val(a), Val(a));
      MulLe(Val(a), Val(a2), Val(b));
      MulLt(Val(b), Power(|b|), Val(a2));
      MulLt(Val(a2), Power(|a2|), Power(|b|));
      PowerAdd(|b|, |a2|);
      TruncatedLength(ab, |b| + |a2|);
    }
  }

  lemma PowerZero()
    ensures Power(0) == 1 && Power(1) == BIGRAD
  {
  }

  /** The square of a number cut at column k, assembled from its parts: the buffer w + p * v0
      holds b * b and a * a, and v is v0 with the doubled cross term added. */
  lemma SquareParts(p: nat, a: nat, b: nat, w: nat, v0: nat, v: nat)
    requires w + p * v0 == b * b + (p * p) * (a * a) && v == v0 + 2 * (a * b)
    ensures w + p * v == (b + p * a) * (b + p * a)
  {
    MulAdd(p, v0, 2 * (a * b));
    MulAssoc(p, 2, a * b);
    SquareOfSum(b, p * a);
    MulAssoc(b, p, a);
    MulAssoc(p, a, b);
    ProductSquared(p, a);
  }

  lemma SquareOfSum(x: int, y: int)
    ensures (x + y) * (x + y) == x * x + 2 * (x * y) + y * y
  {
    MulAdd(x + y, x, y);
    MulAdd(x, x, y);
    MulAdd(y, x, y);
  }

  lemma ProductSquared(p: int, a: int)
    ensures (p * a) * (p * a) == (p * p) * (a * a)
  {
    MulAssoc(p, a, p * a);
    MulAssoc(a, p, a);
    MulAssoc(p, p, a * a);
  }

  /** The combined buffer holds b * b below column 2k and a * a above; adding twice a * b at
      column k gives the square. */
  lemma SquareAssembled(x: seq<Digit>, k: nat, low: seq<Digit>, a2: seq<Digit>, ab: seq<Digit>,
                        z0: seq<Digit>, z: seq<Digit>, a: nat, b: nat)
    requires k <= |x| && |low| == 2 * k && k <= |z0| && k <= |z|
    requires a == Val(x[k..]) && b == Val(x[..k])
    requires Val(low) == b * b && Val(a2) == a * a && Val(ab) == a * b
    requires z0 == low + a2 && z[..k] == z0[..k]
    requires Val(z[k..]) == Val(z0[k..]) + 2 * Val(ab)
    ensures Val(z) == Val(x) * Val(x)
  {
    hide *;
    var p, w, v0, v := Power(k), Val(z0[..k]), Val(z0[k..]), Val(z[k..]);
    assert Val(z) == w + p * v by { ValSplit(z, k); }
    assert w + p * v0 == b * b + (p * p) * (a * a) by { BufferValue(low, a2, k, z0, a * a); }
    assert v == v0 + 2 * (a * b);
    assert Val(z) == (b + p * a) * (b + p * a) by { SquareParts(p, a, b, w, v0, v); }
    assert Val(x) == b + p * a by { ValSplit(x, k); }
    SameProduct(Val(x), b + p * a);
  }

  lemma SameProduct(u: int, v: int)
    requires u == v
    ensures u * u == v * v
  {
  }

  lemma BufferValue(low: seq<Digit>, a2: seq<Digit>, k: nat, z0: seq<Digit>, c: nat)
    requires |low| == 2 * k && z0 == low + a2 && Val(a2) == c
    ensures Val(z0[..k]) + Power(k) * Val(z0[k..]) == Val(low) + (Power(k) * Power(k)) * c
  {
    hide *;
    ValConcat(low, a2);
    PowerAdd(k, k);
    ValSplit(z0, k);
  }

  /** bigsqr: the square, truncated, by recursion on halves of the digits. */
  method BigSqr(x: Bignum) returns (z: Bignum)
    requires x.Valid()
    ensures fresh(z) && fresh(z.ds) && z.Valid() && z.Normal() && z.sign
    ensures z.Mag() == x.Mag() * x.Mag() && (x.len > 0 ==> z.len > 0)
    decreases x.len
  {
    hide Val, Power;
    var len, k := x.len, x.len / 2;
    if len < SQUARE_SPLIT {
      z := BigMul0(x, x);
      z.Truncate();
      return;
    }
    var a, b := Halves(x, k);
    ghost var xs := x.ds[..len];
    var a2 := BigSqr(a);
    a2.Truncate();
    z := BigSqr(b);
    SquareBound(b.ds[..k], z.ds[..z.len]);
    var ab := BigMul0(a, b);
    ab.Truncate();
    CrossTermFits(a.ds[..a.len], b.ds[..b.len], a2.ds[..a2.len], ab.ds[..ab.len]);
    Combine(z, a2, ab, k, xs, Val(xs[k..]), Val(xs[..k]));
  }

  /** The high and the low digits of x, cut at column k. */
  method Halves(x: Bignum, k: nat) returns (a: Bignum, b: Bignum)
    requires x.Valid() && k <= x.len
    ensures a.Valid() && b.Valid() && fresh(a) && fresh(a.ds) && fresh(b) && fresh(b.ds)
    ensures a.len == x.len - k && b.len == k && a.sign && b.sign
    ensures a.ds[..a.len] == x.ds[..x.len][k..] && b.ds[..b.len] == x.ds[..x.len][..k]
  {
    a := new Bignum(x.len - k, true);
    forall i | 0 <= i < x.len - k { a.ds[i] := x.ds[k + i]; }
    b := new Bignum(k, true);
    forall i | 0 <= i < k { b.ds[i] := x.ds[i]; }
  }

  /** Joins b * b, a * a and twice a * b into the square, in z's reallocated buffer. */
  method Combine(z: Bignum, a2: Bignum, ab: Bignum, k: nat, ghost xs: seq<Digit>, ghost a: nat, ghost b: nat)
    requires z.Valid() && a2.Valid() && ab.Valid() && z !in {a2, ab} && z.ds !in {a2.ds, ab.ds}
    requires k <= |xs| && a == Val(xs[k..]) && b == Val(xs[..k])
    requires z.Mag() == b * b && a2.Mag() == a * a && ab.Mag() == a * b
    requires z.len <= 2 * k && a2.len > 0 && ab.len <= k + a2.len
    modifies z, z.ds
    ensures z.Valid() && z.Normal() && fresh(z.ds) && z.sign == old(z.sign) && z.len > 0
    ensures z.Mag() == Val(xs) * Val(xs)
  {
    hide Val, Power;
    Assemble(z, a2, k);
    ghost var z0, low := z.ds[..z.len], z.ds[..2 * k];
    assert z0 == low + a2.ds[..a2.len] && z0[..k] == z.ds[..k] && z0[k..] == z.ds[k..z.len];
    AddCross(z, ab, k);
    assert z.ds[..z.len][..k] == z.ds[..k] && z.ds[..z.len][k..] == z.ds[k..z.len];
    SquareAssembled(xs, k, low, a2.ds[..a2.len], ab.ds[..ab.len], z0, z.ds[..z.len], a, b);
    z.Truncate();
  }

  lemma SquareBound(b: seq<Digit>, z: seq<Digit>)
    requires |b| >= 1 && (|z| <= 1 || z[|z| - 1] != 0) && Val(z) == Val(b) * Val(b)
    ensures |z| <= 2 * |b|
  {
    hide Val, Power;
    ValBound(b);
    MulLe(Val(b), Power(|b|), Val(b));
    MulLt(Val(b), Power(|b|), Power(|b|));
    PowerAdd(|b|, |b|);
    TruncatedLength(z, 2 * |b|);
  }

  /** Pads z to 2k digits and puts a2 above them, in a buffer with one digit to spare. */
  method Assemble(z: Bignum, a2: Bignum, k: nat)
    requires z.Valid() && a2.Valid() && z.len <= 2 * k && z != a2 && z.ds != a2.ds
    modifies z
    ensures z.Valid() && fresh(z.ds) && z.sign == old(z.sign)
    ensures z.len == 2 * k + a2.len && z.ds.Length == z.len + 1
    ensures Val(z.ds[..2 * k]) == old(z.Mag())
    ensures z.ds[2 * k..z.len] == a2.ds[..a2.len]
  {
    hide Val;
    var len := 2 * k + a2.len;
    ghost var s, n := z.ds[..z.len], z.len;
    z.Realloc(len + 1);
    while z.len < 2 * k
      invariant n <= z.len <= 2 * k && z.ds.Length == len + 1
      invariant z.sign == old(z.sign) && fresh(z.ds)
      invariant z.ds[..n] == s && forall j :: n <= j < z.len ==> z.ds[j] == 0
    {
      z.ds[z.len] := 0;
      z.len := z.len + 1;
    }
    TrimValue(z.ds[..2 * k], n);
    assert z.ds[..2 * k][..n] == s;
    ghost var padded := z.ds[..2 * k];
    var ds := z.ds;
    forall i | 0 <= i < a2.len { ds[2 * k + i] := a2.ds[i]; }
    z.len := len;
    assert z.ds[..2 * k] == padded;
  }

  /** Adds twice ab at column k; the carry is at most two and stays inside the buffer. */
  method AddCross(z: Bignum, ab: Bignum, k: nat)
    requires z.Valid() && ab.Valid() && z != ab && z.ds != ab.ds
    requires z.ds.Length == z.len + 1 && k + ab.len <= z.len
    modifies z`len, z.ds
    ensures z.Valid() && k <= z.len && z.ds[..k] == old(z.ds[..k])
    ensures Val(z.ds[k..z.len]) == old(Val(z.ds[k..z.len])) + 2 * old(ab.Mag())
    ensures z.len == old(z.len) || z.len == old(z.len) + 1
  {
    hide Val, Power, Columns;
    var zds, n := z.ds, z.len;
    ghost var w0, cross := zds[k..n], ab.ds[..ab.len];
    var len := ab.len;
    var i := 0;
    var num := 0;
    ColumnsStart(zds[k..n], w0, cross, 2);
    while i < len
      invariant 0 <= i <= len && 0 <= num <= 2
      invariant zds[..k] == old(zds[..k])
      invariant forall j :: i <= j < n - k ==> zds[k + j] == w0[j]
      invariant ab.ds[..ab.len] == cross
      invariant Columns(zds[k..n], w0, cross, 2, i, num)
      modifies zds
    {
      ghost var before, num0 := zds[k..n], num;
      num := num + zds[i + k] + 2 * ab.ds[i];
      zds[i + k] := num % BIGRAD;
      num := num / BIGRAD;
      ColumnsStep(before, zds[k..n], w0, cross, 2, i, num0, num);
      i := i + 1;
    }
    i := i + k;
    while i < n && num != 0
      invariant k + len <= i <= n && 0 <= num <= 2
      invariant zds[..k] == old(zds[..k])
      invariant forall j :: i - k <= j < n - k ==> zds[k + j] == w0[j]
      invariant Columns(zds[k..n], w0, cross, 2, i - k, num)
      modifies zds
    {
      ghost var before, num0 := zds[k..n], num;
      assert zds[k + (i - k)] == w0[i - k];
      num := num + zds[i];
      zds[i] := num % BIGRAD;
      num := num / BIGRAD;
      ColumnsStep(before, zds[k..n], w0, cross, 2, i - k, num0, num);
      i := i + 1;
    }
    if num == 0 {
      ColumnsRest(zds[k..n], w0, cross, 2, i - k);
    } else {
      ColumnsDone(zds[k..n], w0, cross, 2, num);
      ValSnoc(zds[k..n], num);
      zds[n] := num;
      z.len := n + 1;
      assert zds[k..n + 1] == zds[k..n] + [num];
    }
  }

  /** Columns that are not touched once the carry is gone already hold their result. */
  lemma ColumnsRest(z: seq<Digit>, x: seq<Digit>, y: seq<Digit>, c: int, i: nat)
    requires i <= |z| == |x| && |y| <= i && z[i..] == x[i..] && Columns(z, x, y, c, i, 0)
    ensures Val(z) == Val(x) + c * Val(y)
  {
    ValSplit(z, i);
    ValSplit(x, i);
    assert Upto(x, i) == x[..i] && Upto(y, i) == y by {
      if i == |y| { assert y[..i] == y; }
    }
  }

  function IntPow(b: int, e: nat): int {
    if e == 0 then 1 else b * IntPow(b, e - 1)
  }

  lemma {:induction false} IntPowDouble(b: int, e: nat)
    ensures IntPow(b, e) * IntPow(b, e) == IntPow(b, 2 * e)
  {
    if e > 0 {
      IntPowDouble(b, e - 1);
      var p := IntPow(b, e - 1);
      MulAssoc(b, p, b * p);
      MulAssoc(p, b, p);
      assert IntPow(b, 2 * e) == b * IntPow(b, 2 * e - 1);
      assert IntPow(b, 2 * e - 1) == b * IntPow(b, 2 * e - 2);
    }
  }

  /** 1024*1024 / SIZEOF_BDIGITS. */
  const BIGLEN_LIMIT: nat := 262144

  /** rb_big_pow for a non-negative Fixnum exponent. A result expected to be longer than the
      limit is not computed as an integer. */
  method BigPow(x: Bignum, yy: nat) returns (tooBig: bool, z: Bignum)
    requires x.Valid() && yy <= FIXNUM_MAX
    ensures tooBig <==> yy > 0 && (x.len > BIGLEN_LIMIT || x.len > BIGLEN_LIMIT / yy)
    ensures !tooBig ==> z.Valid() && (z == x || (fresh(z) && fresh(z.ds)))
    ensures !tooBig ==> z.Int() == IntPow(x.Int(), yy)
    ensures !tooBig && yy != 1 ==> fresh(z) && z.Normal()
  {
    hide Val, Power, Pow2, IntPow, Raised;
    tooBig := false;
    if yy == 0 {
      z := new Bignum.FromDigit(1, true);
      IntPowStep(x.Int(), 0);
      return;
    }
    z := x;
    RaisedStart(x);
    if x.len > BIGLEN_LIMIT || x.len > BIGLEN_LIMIT / yy {
      tooBig := true;
      return;
    }
    var mask := FIXNUM_MAX + 1;
    var started := false;  // whether z has been set
    ghost var e, rest, k: int := 0, yy, 30;
    FirstMask();
    while mask != 0
      invariant -1 <= k && mask == (if k < 0 then 0 else Pow2(k))
      invariant 0 <= rest && yy == e * (if k < 0 then 1 else 2 * mask) + rest && e >= 0
      invariant if k < 0 then rest == 0 else rest < 2 * mask
      invariant started <==> e > 0
      invariant Raised(x, z, e)
      invariant z == x || (fresh(z) && fresh(z.ds))
      modifies {}
      decreases k
    {
      NextMask(k);
      TestBit(yy, mask, e, rest);
      if started {
        z := SquareStep(x, z, e);
      }
      e := 2 * e;
      if (yy / mask) % 2 == 1 {
        z := MultiplyStep(x, z, e, started);
        started := true;
        e := e + 1;
        rest := rest - mask;
      }
      mask := mask / 2;
      k := k - 1;
    }
    RaisedDone(x, z, e);
  }

  lemma RaisedStart(x: Bignum)
    requires x.Valid()
    ensures Raised(x, x, 0)
  {
  }

  lemma RaisedDone(x: Bignum, z: Bignum, e: nat)
    requires Raised(x, z, e) && e > 0
    ensures z.Valid() && z.Int() == IntPow(x.Int(), e) && (e != 1 ==> z != x && z.Normal())
  {
  }

  /** z holds x to the power e; z is x itself exactly for e <= 1. */
  ghost predicate Raised(x: Bignum, z: Bignum, e: nat)
    reads x, x.ds, z, z.ds
  {
    && x.Valid()
    && (e <= 1 ==> z == x)
    && (e > 1 ==> z != x && z.ds != x.ds && z.Valid() && z.Normal())
    && (e > 0 ==> z.Int() == IntPow(x.Int(), e))
  }

  method SquareStep(x: Bignum, z: Bignum, ghost e: nat) returns (s: Bignum)
    requires e > 0 && Raised(x, z, e)
    ensures fresh(s) && fresh(s.ds) && Raised(x, s, 2 * e)
  {
    hide Val, Power, IntPow;
    s := BigSqr(z);
    s.Truncate();
    IntPowDouble(x.Int(), e);
    SignedProduct(z.sign, z.sign, z.Mag(), z.Mag());
  }

  method MultiplyStep(x: Bignum, z: Bignum, ghost e: nat, started: bool) returns (p: Bignum)
    requires Raised(x, z, e) && e % 2 == 0 && (started <==> e > 0)
    ensures started ==> fresh(p) && fresh(p.ds)
    ensures !started ==> p == x
    ensures Raised(x, p, e + 1)
  {
    hide Val, Power, IntPow;
    IntPowStep(x.Int(), e);
    if started {
      p := BigMul0(z, x);
      p.Truncate();
    } else {
      p := x;
    }
  }

  lemma IntPowStep(b: int, e: nat)
    ensures IntPow(b, 0) == 1 && IntPow(b, e + 1) == b * IntPow(b, e)
  {
  }

  lemma FirstMask()
    ensures FIXNUM_MAX + 1 == Pow2(30)
  {
    Pow2Add(10, 10);
    Pow2Add(20, 10);
    assert Pow2(5) == 32;
    Pow2Add(5, 5);
  }

  lemma NextMask(k: nat)
    ensures Pow2(k) / 2 == if k == 0 then 0 else Pow2(k - 1)
    ensures Pow2(k) == if k == 0 then 1 else 2 * Pow2(k - 1)
  {
  }

  /** The mask tests the leading bit of what is left of the exponent. */
  lemma TestBit(yy: nat, mask: nat, e: nat, rest: nat)
    requires mask > 0 && yy == e * (2 * mask) + rest && rest < 2 * mask
    ensures (yy / mask) % 2 == 1 <==> rest >= mask
    ensures yy == (2 * e) * mask + rest && yy == (2 * e + 1) * mask + (rest - mask)
  {
    MulAssoc(e, 2, mask);
    MulAdd(mask, 2 * e, 1);
    if rest < mask {
      DivUnique(yy, mask, 2 * e, rest);
    } else {
      DivUnique(yy, mask, 2 * e + 1, rest - mask);
    }
  }
}
