/** bigsub, bigadd and bigmul1 of bignum.c: column loops over digit buffers. */
module BigArith {
  import opened Digits
  import opened Arith
  import opened Bignums

  /** More digits, when none of them leads with zero, means a larger magnitude. */
  lemma LongerIsLarger(x: seq<Digit>, y: seq<Digit>)
    requires |y| < |x| && (|x| <= 1 || x[|x| - 1] != 0)
    ensures Val(y) <= Val(x)
  {
    ValOne(y);
    ValOne(x);
    if |x| > 1 {
      ValTop(x, |x| - 1);
      ValBound(y);
      PowerMonotone(|y|, |x| - 1);
    }
  }

  /** Digits equal above i and larger at i decide a comparison of equal lengths. */
  lemma LargerAt(x: seq<Digit>, y: seq<Digit>, i: nat)
    requires i < |x| == |y| && x[i + 1..] == y[i + 1..] && y[i] < x[i]
    ensures Val(y) < Val(x)
  {
    hide Val, Power;
    ValSplit(x, i + 1);
    ValSplit(y, i + 1);
    assert x[..i + 1] == x[..i] + [x[i]] && y[..i + 1] == y[..i] + [y[i]];
    ValSnoc(x[..i], x[i]);
    ValSnoc(y[..i], y[i]);
    ValBound(y[..i]);
    MulLe(y[i] + 1, x[i], Power(i));
    MulAdd(Power(i), y[i], 1);
  }

  /** bigsub: the signed difference of the magnitudes. */
  method BigSub(x0: Bignum, y0: Bignum) returns (z: Bignum)
    requires x0.Valid() && x0.Normal() && y0.Valid() && y0.Normal()
    ensures fresh(z) && fresh(z.ds) && z.Valid()
    ensures z.Int() == x0.Mag() - y0.Mag()
  {
    var x, y, swapped := x0, y0, false;
    var i := x.len;
    if x.len < y.len {
      LongerIsLarger(y.ds[..y.len], x.ds[..x.len]);
      x, y, swapped := y, x, true;
    } else if x.len == y.len {
      while i > 0
        invariant 0 <= i <= x.len == y.len && x == x0 && y == y0 && !swapped
        invariant x.ds[i..x.len] == y.ds[i..y.len]
      {
        i := i - 1;
        if x.ds[i] > y.ds[i] {
          LargerAt(x.ds[..x.len], y.ds[..y.len], i);
          break;
        }
        if x.ds[i] < y.ds[i] {
          LargerAt(y.ds[..y.len], x.ds[..x.len], i);
          x, y, swapped := y, x, true;
          break;
        }
      }
      assert i == 0 ==> x.Mag() >= y.Mag() by {
        if i == 0 && x.ds[0..x.len] == y.ds[0..y.len] {
          assert x.ds[..x.len] == x.ds[0..x.len];
          assert y.ds[..y.len] == y.ds[0..y.len];
        }
      }
    } else {
      LongerIsLarger(x.ds[..x.len], y.ds[..y.len]);
    }
    z := SubtractSmaller(x, y, !swapped);
  }

  /** The column loops of bigsub, once x is known to be the larger. */
  method SubtractSmaller(x: Bignum, y: Bignum, s: bool) returns (z: Bignum)
    requires x.Valid() && y.Valid() && y.len <= x.len && y.Mag() <= x.Mag()
    ensures fresh(z) && fresh(z.ds) && z.Valid()
    ensures z.sign == s && z.len == x.len && z.Mag() == x.Mag() - y.Mag()
  {
    hide Val, Columns;
    z := new Bignum(x.len, s);
    var zds := z.ds;
    var i := 0;
    var num := 0;
    ghost var xs, ys := x.ds[..x.len], y.ds[..y.len];
    ColumnsStart(zds[..], xs, ys, -1);
    while i < y.len
      invariant 0 <= i <= y.len && -1 <= num <= 0
      invariant Columns(zds[..], xs, ys, -1, i, num)
      modifies zds
    {
      ghost var before, num0 := zds[..], num;
      num := num + (x.ds[i] - y.ds[i]);
      zds[i] := num % BIGRAD;
      num := num / BIGRAD;
      ColumnsStep(before, zds[..], xs, ys, -1, i, num0, num);
      i := i + 1;
    }
    while num != 0 && i < x.len
      invariant y.len <= i <= x.len && -1 <= num <= 0
      invariant Columns(zds[..], xs, ys, -1, i, num)
      modifies zds
    {
      ghost var before, num0 := zds[..], num;
      num := num + x.ds[i];
      zds[i] := num % BIGRAD;
      num := num / BIGRAD;
      ColumnsStep(before, zds[..], xs, ys, -1, i, num0, num);
      i := i + 1;
    }
    while i < x.len
      invariant y.len <= i <= x.len && -1 <= num <= 0 && (i < x.len ==> num == 0)
      invariant Columns(zds[..], xs, ys, -1, i, num)
      modifies zds
    {
      ghost var before := zds[..];
      zds[i] := x.ds[i];
      ColumnsStep(before, zds[..], xs, ys, -1, i, 0, 0);
      i := i + 1;
    }
    ColumnsDone(zds[..], xs, ys, -1, num);
    NoBorrow(zds[..], num, x.Mag() - y.Mag());
    assert zds[..] == z.ds[..z.len];
  }

  /** bigadd: x + y, or x - y when sign is false. */
  method BigAdd(x0: Bignum, y0: Bignum, sign0: bool) returns (z: Bignum)
    requires x0.Valid() && y0.Valid()
    requires x0.sign == (sign0 == y0.sign) || (x0.Normal() && y0.Normal())
    ensures fresh(z) && fresh(z.ds) && z.Valid()
    ensures z.Int() == if sign0 then x0.Int() + y0.Int() else x0.Int() - y0.Int()
  {
    var sign := sign0 == y0.sign;
    if x0.sign != sign {
      if sign { z := BigSub(y0, x0); return; }
      z := BigSub(x0, y0);
      return;
    }
    if x0.len > y0.len {
      z := AddShorter(y0, x0, sign);
    } else {
      z := AddShorter(x0, y0, sign);
    }
  }

  /** The column loops of bigadd, x being no longer than y. */
  method AddShorter(x: Bignum, y: Bignum, s: bool) returns (z: Bignum)
    requires x.Valid() && y.Valid() && x.len <= y.len
    ensures fresh(z) && fresh(z.ds) && z.Valid()
    ensures z.sign == s && z.len == y.len + 1 && z.Mag() == x.Mag() + y.Mag()
  {
    hide Val, Columns;
    z := new Bignum(y.len + 1, s);
    var zds := z.ds;
    var i := 0;
    var num := 0;
    ghost var xs, ys := x.ds[..x.len], y.ds[..y.len];
    ColumnsStart(zds[..], ys, xs, 1);
    while i < x.len
      invariant 0 <= i <= x.len && 0 <= num <= 1
      invariant Columns(zds[..], ys, xs, 1, i, num)
      modifies zds
    {
      ghost var before, num0 := zds[..], num;
      num := num + (x.ds[i] + y.ds[i]);
      zds[i] := num % BIGRAD;
      num := num / BIGRAD;
      ColumnsStep(before, zds[..], ys, xs, 1, i, num0, num);
      i := i + 1;
    }
    while num != 0 && i < y.len
      invariant x.len <= i <= y.len && 0 <= num <= 1
      invariant Columns(zds[..], ys, xs, 1, i, num)
      modifies zds
    {
      ghost var before, num0 := zds[..], num;
      num := num + y.ds[i];
      zds[i] := num % BIGRAD;
      num := num / BIGRAD;
      ColumnsStep(before, zds[..], ys, xs, 1, i, num0, num);
      i := i + 1;
    }
    while i < y.len
      invariant x.len <= i <= y.len && 0 <= num <= 1 && (i < y.len ==> num == 0)
      invariant Columns(zds[..], ys, xs, 1, i, num)
      modifies zds
    {
      ghost var before := zds[..];
      zds[i] := y.ds[i];
      ColumnsStep(before, zds[..], ys, xs, 1, i, 0, 0);
      i := i + 1;
    }
    ghost var before := zds[..];
    zds[i] := num;
    ColumnsStep(before, zds[..], ys, xs, 1, i, num, 0);
    ColumnsDone(zds[..], ys, xs, 1, 0);
    assert zds[..] == z.ds[..z.len];
  }

  /** z holds x's digits below i times y, the rest of z is zero. */
  ghost predicate Multiplied(z: seq<Digit>, x: seq<Digit>, y: seq<Digit>, i: nat)
    requires i <= |x|
  {
    && |z| == |x| + |y| + 1
    && Val(z) == Val(x[..i]) * Val(y)
    && forall k :: i + |y| <= k < |z| ==> z[k] == 0
  }

  /** Row i of bigmul1 after j columns: z0 is the buffer before the row. */
  ghost predicate RowDone(z: seq<Digit>, z0: seq<Digit>, y: seq<Digit>, i: nat, j: nat, dd: int, n: int)
    requires j <= |y| && i + j <= |z0| == |z|
  {
    && z[..i] == z0[..i] && z[i + j..] == z0[i + j..]
    && Val(z[i..i + j]) + Power(j) * n == Val(z0[i..i + j]) + dd * Val(y[..j])
  }

  lemma RowStart(z: seq<Digit>, x: seq<Digit>, y: seq<Digit>, i: nat)
    requires i < |x| && Multiplied(z, x, y, i)
    ensures |z| == |x| + |y| + 1 && RowDone(z, z, y, i, 0, x[i], 0)
  {
  }

  lemma PowerNext(j: nat)
    ensures Power(j + 1) == BIGRAD * Power(j)
  {
  }

  lemma RowStep(z: seq<Digit>, z': seq<Digit>, z0: seq<Digit>, y: seq<Digit>, i: nat, j: nat, dd: int, n: int, n': int)
    requires j < |y| && i + j < |z0| == |z| == |z'|
    requires RowDone(z, z0, y, i, j, dd, n)
    requires z' == z[i + j := z'[i + j]]
    requires z0[i + j] + dd * y[j] + n == z'[i + j] + BIGRAD * n'
    ensures RowDone(z', z0, y, i, j + 1, dd, n')
  {
    hide Val, Power;
    PowerNext(j);
    var w := Power(j);
    assert z'[i..i + j] == z[i..i + j];
    assert z'[..i] == z[..i] && z'[i + j + 1..] == z[i + j..][1..] == z0[i + j..][1..] == z0[i + j + 1..];
    ValWindow(z', i, j);
    ValWindow(z0, i, j);
    assert y[0..j] == y[..j] && y[0..j + 1] == y[..j + 1];
    ValWindow(y, 0, j);
    ColumnSum(w, z0[i + j], y[j], dd, n, z'[i + j], n');
    MulAdd(dd, Val(y[..j]), w * y[j]);
  }

  /** A finished row, with its carry stored in the digit above it. */
  lemma RowEnd(z: seq<Digit>, z': seq<Digit>, z0: seq<Digit>, x: seq<Digit>, y: seq<Digit>, i: nat, n: Digit)
    requires i < |x| && Multiplied(z0, x, y, i) && |z| == |z0|
    requires RowDone(z, z0, y, i, |y|, x[i], n)
    requires z' == if n == 0 then z else z[i + |y| := n]
    ensures Multiplied(z', x, y, i + 1)
  {
    hide Val, Power;
    var m := |y|;
    assert y[..m] == y;
    assert z0[i + m] == 0;
    assert z[i + m] == z0[i + m] by { assert z[i + m..][0] == z0[i + m..][0]; }
    ThreeParts(z', i, m);
    ThreeParts(z0, i, m);
    assert z'[i..i + m] == z[i..i + m];
    assert z'[..i] == z[..i];
    assert forall k :: i + 1 + m <= k < |z'| ==> z'[k] == 0 by {
      forall k | i + 1 + m <= k < |z'| ensures z'[k] == 0 {
        assert z[k] == z[i + m..][k - i - m] == z0[i + m..][k - i - m] == z0[k];
      }
    }
    ValZero(z'[i + m + 1..]);
    ValZero(z0[i + m + 1..]);
    assert Val(z') == Val(z0[..i]) + Power(i) * (Val(z[i..i + m]) + Power(m) * n);
    assert Val(z0) == Val(z0[..i]) + Power(i) * Val(z0[i..i + m]);
    MulAdd(Power(i), Val(z0[i..i + m]), x[i] * Val(y));
    assert x[..i + 1] == x[..i] + [x[i]];
    ValSnoc(x[..i], x[i]);
    MulAdd(Val(y), Val(x[..i]), Power(i) * x[i]);
    MulAssoc(Power(i), x[i], Val(y));
  }

  /** A buffer cut at i, i + m and i + m + 1, when what follows is zero. */
  lemma ThreeParts(z: seq<Digit>, i: nat, m: nat)
    requires i + m < |z| && forall k :: i + m + 1 <= k < |z| ==> z[k] == 0
    ensures Val(z) == Val(z[..i]) + Power(i) * (Val(z[i..i + m]) + Power(m) * z[i + m])
  {
    hide *;
    TrimValue(z, i + m + 1);
    SplitAt(z, i, i + m + 1);
    ValWindow(z, i, m);
  }

  /** One row of bigmul1: adds dd times y at column i. */
  method MultiplyRow(zds: array<Digit>, y: Bignum, i: nat, dd: Digit, ghost xs: seq<Digit>)
    requires y.Valid() && zds != y.ds && i < |xs| && xs[i] == dd
    requires Multiplied(zds[..], xs, y.ds[..y.len], i)
    modifies zds
    ensures Multiplied(zds[..], xs, y.ds[..y.len], i + 1)
  {
    hide Val, Power, Multiplied;
    ghost var z0, ys := zds[..], y.ds[..y.len];
    RowStart(z0, xs, ys, i);
    var n := 0;
    var j := 0;
    while j < y.len
      invariant 0 <= j <= y.len && 0 <= n < BIGRAD
      invariant RowDone(zds[..], z0, ys, i, j, dd, n)
    {
      ghost var before, n0 := zds[..], n;
      MulDigits(dd, y.ds[j]);
      var ee := n + dd * y.ds[j];
      assert zds[i + j] + ee < BIGRAD * BIGRAD;  // fits BDIGIT_DBL
      n := zds[i + j] + ee;
      if ee != 0 { zds[i + j] := n % BIGRAD; }
      n := n / BIGRAD;
      RowStep(before, zds[..], z0, ys, i, j, dd, n0, n);
      j := j + 1;
    }
    ghost var z := zds[..];
    if n != 0 { zds[i + j] := n; }
    RowEnd(z, zds[..], z0, xs, ys, i, n);
  }

  /** bigmul1, run without interruption into a buffer of the summed lengths plus one. */
  method BigMul1(x: Bignum, y: Bignum, z: Bignum)
    requires x.Valid() && y.Valid() && z.Valid()
    requires z.len == z.ds.Length == x.len + y.len + 1
    requires z.ds != x.ds && z.ds != y.ds && z != x && z != y
    modifies z.ds
    ensures z.Mag() == x.Mag() * y.Mag()
  {
    hide Val, Multiplied;
    var zds := z.ds;
    ghost var xs, ys := x.ds[..x.len], y.ds[..y.len];
    var j := x.len + y.len + 1;
    while j > 0
      invariant 0 <= j <= zds.Length
      invariant forall k :: j <= k < zds.Length ==> zds[k] == 0
    {
      j := j - 1;
      zds[j] := 0;
    }
    MultipliedStart(zds[..], xs, ys);
    var i := 0;
    while i < x.len
      invariant 0 <= i <= x.len
      invariant x.ds[..x.len] == xs && y.ds[..y.len] == ys
      invariant Multiplied(zds[..], xs, ys, i)
    {
      var dd := x.ds[i];
      if dd == 0 {
        MultipliedSkip(zds[..], xs, ys, i);
      } else {
        MultiplyRow(zds, y, i, dd, xs);
      }
      i := i + 1;
    }
    MultipliedDone(zds[..], xs, ys);
    assert zds[..] == z.ds[..z.len];
  }

  lemma MultipliedStart(z: seq<Digit>, x: seq<Digit>, y: seq<Digit>)
    requires |z| == |x| + |y| + 1 && forall k :: 0 <= k < |z| ==> z[k] == 0
    ensures Multiplied(z, x, y, 0)
  {
    ValZero(z);
  }

  lemma MultipliedSkip(z: seq<Digit>, x: seq<Digit>, y: seq<Digit>, i: nat)
    requires i < |x| && x[i] == 0 && Multiplied(z, x, y, i)
    ensures Multiplied(z, x, y, i + 1)
  {
    assert x[..i + 1] == x[..i] + [0];
    ValSnoc(x[..i], 0);
  }

  lemma MultipliedDone(z: seq<Digit>, x: seq<Digit>, y: seq<Digit>)
    requires Multiplied(z, x, y, |x|)
    ensures Val(z) == Val(x) * Val(y)
  {
    assert x[..|x|] == x;
  }

  /** rb_big_mul0 on two bignums. */
  method BigMul0(x: Bignum, y: Bignum) returns (z: Bignum)
    requires x.Valid() && y.Valid()
    ensures fresh(z) && fresh(z.ds) && z.Valid()
    ensures z.sign == (x.sign == y.sign) && z.len == x.len + y.len + 1
    ensures z.Mag() == x.Mag() * y.Mag() && z.Int() == x.Int() * y.Int()
  {
    z := new Bignum(x.len + y.len + 1, x.sign == y.sign);
    BigMul1(x, y, z);
    SignedProduct(x.sign, y.sign, x.Mag(), y.Mag());
  }

  lemma SignedProduct(s: bool, t: bool, a: nat, b: nat)
    ensures Signed(s == t, a * b) == Signed(s, a) * Signed(t, b)
  {
  }
}
