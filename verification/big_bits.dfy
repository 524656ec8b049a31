/** Bit operations of bignum.c: get2comp, rb_big_and, rb_big_or, rb_big_xor, rb_big_neg,
    rb_big_aref and the shifts, against integers as infinite two's-complement bit strings. */
module BigBits {
  import opened Digits
  import opened Arith
  import opened Bignums

  /** Bit n of an integer written in two's complement with infinitely many bits. */
  function Bit(x: int, n: nat): bool
    decreases n
  {
    if n == 0 then x % 2 == 1 else Bit(x / 2, n - 1)
  }

  /** Two integers with the same bits are equal. */
  lemma {:induction false} BitsDetermine(x: int, y: int)
    requires forall n: nat :: Bit(x, n) == Bit(y, n)
    ensures x == y
    decreases (if x < 0 then -x else x) + (if y < 0 then -y else y)
  {
    assert Bit(x, 0) == Bit(y, 0);
    if (x == 0 || x == -1) && (y == 0 || y == -1) {
    } else {
      forall n: nat ensures Bit(x / 2, n) == Bit(y / 2, n) {
        assert Bit(x, n + 1) == Bit(y, n + 1);
      }
      BitsDetermine(x / 2, y / 2);
    }
  }

  /** The bits of a number cut at bit k: below k those of the low part, above those of the rest. */
  lemma {:induction false} BitOfSum(d: nat, t: int, k: nat, n: nat)
    requires d < Pow2(k)
    ensures Bit(d + Pow2(k) * t, n) == if n < k then Bit(d, n) else Bit(t, n - k)
    decreases k
  {
    if k > 0 {
      var p := Pow2(k - 1);
      MulAssoc(2, p, t);
      assert d + Pow2(k) * t == d + 2 * (p * t);
      assert (d + 2 * (p * t)) / 2 == d / 2 + p * t && (d + 2 * (p * t)) % 2 == d % 2;
      if n > 0 {
        BitOfSum(d / 2, t, k - 1, n - 1);
      }
    }
  }

  /** A boolean connective given by its truth table. */
  datatype Op = And | Or | Xor {
    function Apply(a: bool, b: bool): bool {
      match this
      case And => a && b
      case Or => a || b
      case Xor => a != b
    }
  }

  /** The connective on the n low bits of two words: &, | and ^ of the source. */
  function Word(op: Op, a: nat, b: nat, n: nat): (r: nat)
    ensures r < Pow2(n)
    decreases n
  {
    if n == 0 then 0
    else (if op.Apply(a % 2 == 1, b % 2 == 1) then 1 else 0) + 2 * Word(op, a / 2, b / 2, n - 1)
  }

  function DigitOp(op: Op, a: Digit, b: Digit): (r: Digit) {
    Pow2Digit();
    Word(op, a, b, BITSPERDIG)
  }

  lemma {:induction false} WordBits(op: Op, a: nat, b: nat, n: nat, i: nat)
    requires i < n
    ensures Bit(Word(op, a, b, n), i) == op.Apply(Bit(a, i), Bit(b, i))
    decreases n
  {
    var w := Word(op, a / 2, b / 2, n - 1);
    if i > 0 {
      assert Word(op, a, b, n) / 2 == w;
      WordBits(op, a / 2, b / 2, n - 1, i - 1);
    }
  }

  /** What a connective does to a word against all zeros or all ones. */
  lemma {:induction false} WordExtended(b: nat, n: nat)
    requires b < Pow2(n)
    ensures Word(And, 0, b, n) == 0 && Word(Or, 0, b, n) == b && Word(Xor, 0, b, n) == b
    ensures Word(And, Pow2(n) - 1, b, n) == b && Word(Or, Pow2(n) - 1, b, n) == Pow2(n) - 1
    ensures Word(Xor, Pow2(n) - 1, b, n) == Pow2(n) - 1 - b
    decreases n
  {
    if n > 0 {
      var m := Pow2(n) - 1;
      assert m == 1 + 2 * (Pow2(n - 1) - 1);
      assert m / 2 == Pow2(n - 1) - 1 && m % 2 == 1;
      WordExtended(b / 2, n - 1);
    }
  }

  /** Each digit of z is the connective of the sign-extended digits of x and y. */
  ghost predicate Pointwise(op: Op, z: seq<Digit>, x: seq<Digit>, nx: bool, y: seq<Digit>, ny: bool) {
    && |x| <= |z| && |y| <= |z|
    && forall i :: 0 <= i < |z| ==> z[i] == DigitOp(op, SignDigit(x, i, nx), SignDigit(y, i, ny))
  }

  /** A sign-extended buffer from digit i on. */
  lemma TwosFrom(s: seq<Digit>, i: nat, neg: bool)
    ensures Twos(Drop(s, i), neg) == SignDigit(s, i, neg) + BIGRAD * Twos(Drop(s, i + 1), neg)
  {
    if i < |s| {
      assert s[i..][1..] == s[i + 1..];
    }
  }

  function Drop(s: seq<Digit>, i: nat): seq<Digit> {
    if i <= |s| then s[i..] else []
  }

  /** A digitwise connective is the bitwise connective of the integers. */
  lemma {:induction false} PointwiseBits(op: Op, z: seq<Digit>, x: seq<Digit>, nx: bool, y: seq<Digit>, ny: bool,
                                         i: nat, n: nat)
    requires Pointwise(op, z, x, nx, y, ny) && i <= |z|
    ensures Bit(Twos(z[i..], op.Apply(nx, ny)), n)
            == op.Apply(Bit(Twos(Drop(x, i), nx), n), Bit(Twos(Drop(y, i), ny), n))
    decreases |z| - i
  {
    hide Twos, Bit, Word, DigitOp, Drop, Op.Apply, SignDigit;
    var nz := op.Apply(nx, ny);
    if i == |z| {
      PointwiseEnd(op, z, x, nx, y, ny, n);
    } else {
      TwosHead(z, i, nz);
      TwosFrom(x, i, nx);
      TwosFrom(y, i, ny);
      if n >= BITSPERDIG {
        PointwiseBits(op, z, x, nx, y, ny, i + 1, n - BITSPERDIG);
      }
      PointwiseAt(op, z, x, nx, y, ny, i);
      DigitThenRest(op, z[i], SignDigit(x, i, nx), SignDigit(y, i, ny),
                    Twos(z[i + 1..], nz), Twos(Drop(x, i + 1), nx), Twos(Drop(y, i + 1), ny), n);
    }
  }

  lemma PointwiseEnd(op: Op, z: seq<Digit>, x: seq<Digit>, nx: bool, y: seq<Digit>, ny: bool, n: nat)
    requires |x| <= |z| && |y| <= |z|
    ensures Bit(Twos(z[|z|..], op.Apply(nx, ny)), n)
            == op.Apply(Bit(Twos(Drop(x, |z|), nx), n), Bit(Twos(Drop(y, |z|), ny), n))
  {
    SignBits(n);
    assert Drop(x, |z|) == [] && Drop(y, |z|) == [] && z[|z|..] == [];
  }

  lemma PointwiseAt(op: Op, z: seq<Digit>, x: seq<Digit>, nx: bool, y: seq<Digit>, ny: bool, i: nat)
    requires Pointwise(op, z, x, nx, y, ny) && i < |z|
    ensures z[i] == DigitOp(op, SignDigit(x, i, nx), SignDigit(y, i, ny))
  {
  }

  lemma DigitThenRest(op: Op, c: Digit, a: Digit, b: Digit, tz: int, tx: int, ty: int, n: nat)
    requires c == DigitOp(op, a, b)
    requires n >= BITSPERDIG ==> Bit(tz, n - BITSPERDIG) == op.Apply(Bit(tx, n - BITSPERDIG), Bit(ty, n - BITSPERDIG))
    ensures Bit(c + BIGRAD * tz, n) == op.Apply(Bit(a + BIGRAD * tx, n), Bit(b + BIGRAD * ty, n))
  {
    hide Bit, Word, Op.Apply, Pow2;
    Pow2Digit();
    BitOfSum(c, tz, BITSPERDIG, n);
    BitOfSum(a, tx, BITSPERDIG, n);
    BitOfSum(b, ty, BITSPERDIG, n);
    if n < BITSPERDIG {
      WordBits(op, a, b, BITSPERDIG, n);
    }
  }

  lemma {:induction false} SignBits(n: nat)
    ensures !Bit(0, n) && Bit(-1, n)
    decreases n
  {
    if n > 0 {
      SignBits(n - 1);
    }
  }

  /** The bits of an integer given by its digits. */
  lemma {:induction false} DigitBits(s: seq<Digit>, neg: bool, i: nat, n: nat)
    requires n < BITSPERDIG
    ensures Bit(Twos(s, neg), BITSPERDIG * i + n) == Bit(SignDigit(s, i, neg), n)
    decreases i
  {
    Pow2Digit();
    TwosFrom(s, 0, neg);
    assert Drop(s, 0) == s;
    BitOfSum(SignDigit(s, 0, neg), Twos(Drop(s, 1), neg), BITSPERDIG, BITSPERDIG * i + n);
    if i > 0 {
      DigitBits(Drop(s, 1), neg, i - 1, n);
      assert SignDigit(Drop(s, 1), i - 1, neg) == SignDigit(s, i, neg);
    }
  }

  /** Digitwise complement. */
  function Flip(s: seq<Digit>): (t: seq<Digit>)
    ensures |t| == |s| && forall i :: 0 <= i < |s| ==> t[i] == BIGRAD - 1 - s[i]
  {
    if s == [] then [] else [BIGRAD - 1 - s[0]] + Flip(s[1..])
  }

  lemma {:induction false} FlipValue(s: seq<Digit>)
    ensures Val(Flip(s)) == Power(|s|) - 1 - Val(s)
  {
    if s != [] {
      FlipValue(s[1..]);
      assert Flip(s)[1..] == Flip(s[1..]);
    }
  }

  /** Complements the digits in place. */
  method FlipDigits(ds: array<Digit>, n: nat)
    requires n <= ds.Length
    modifies ds
    ensures ds[..n] == Flip(old(ds[..n])) && ds[n..] == old(ds[n..])
  {
    var i := n;
    while i > 0
      invariant 0 <= i <= n
      invariant forall k :: 0 <= k < i || n <= k < ds.Length ==> ds[k] == old(ds[k])
      invariant forall k :: i <= k < n ==> ds[k] == BIGRAD - 1 - old(ds[k])
    {
      i := i - 1;
      ds[i] := BIGRAD - 1 - ds[i];
    }
  }

  /** get2comp: the magnitude becomes its complement in Power(len); when that does not fit, because
      all digits were zero, the number grows by a digit. */
  method Get2Comp(x: Bignum)
    requires x.Valid()
    modifies x, x.ds
    ensures x.Valid() && x.sign == old(x.sign) && (x.ds == old(x.ds) || fresh(x.ds))
    ensures old(x.len) == 0 ==> x.len == 0
    ensures old(x.len) > 0 ==> x.Mag() == Power(old(x.len)) - old(x.Mag())
    ensures x.len == if old(x.len) > 0 && old(x.Mag()) == 0 then old(x.len) + 1 else old(x.len)
  {
    hide Val, Power, Columns, Flip;
    var n := x.len;
    if n == 0 { return; }
    ghost var s := x.ds[..n];
    FlipDigits(x.ds, n);
    FlipValue(s);
    ghost var y := x.ds[..n];
    var ds := x.ds;
    var i := 0;
    var num := 1;
    ColumnsStart(ds[..n], [1], y, 1);
    while i < n
      invariant 0 <= i <= n && 0 <= num <= 1 && (i == 0 ==> num == 1)
      invariant forall k :: i <= k < n ==> ds[k] == y[k]
      invariant Columns(ds[..n], [1], y, 1, i, if i == 0 then 0 else num)
      modifies ds
    {
      ghost var before, num0 := ds[..n], if i == 0 then 0 else num;
      num := num + ds[i];
      ds[i] := num % BIGRAD;
      num := num / BIGRAD;
      ColumnsStep(before, ds[..n], [1], y, 1, i, num0, num);
      i := i + 1;
    }
    ColumnsDone(ds[..n], [1], y, 1, num);
    ValOne([1]);
    ValBound(ds[..n]);
    ValBound(s);
    CarryOut(Val(ds[..n]), num, Power(n), Val(s));
    if num != 0 {
      x.Resize(n + 1);
      x.ds[n] := 1;
      assert x.ds[..n + 1] == ds[..n] + [1];
      ValSnoc(ds[..n], 1);
    }
  }

  lemma CarryOut(v: nat, num: nat, p: nat, s: nat)
    requires v + p * num == p - s && num <= 1 && v < p && s < p
    ensures num == 1 <==> s == 0
    ensures num == 1 ==> v == 0
  {
  }

  /** No negative zero: arithmetic never hands one on, bignorm makes every zero a Fixnum. */
  ghost predicate Proper(x: Bignum)
    reads x, x.ds
  {
    x.Valid() && (x.sign || x.Mag() > 0)
  }

  /** An operand as the bit operations use it: a negative one is cloned and complemented. */
  method TwosOperand(x: Bignum) returns (c: Bignum)
    requires Proper(x)
    ensures c.Valid() && c.sign == x.sign && c.len == x.len
    ensures c == x || (fresh(c) && fresh(c.ds))
    ensures Twos(c.ds[..c.len], !c.sign) == x.Int()
  {
    hide Val, Twos, Power;
    c := x;
    TwosVal(x.ds[..x.len], false);
    if !x.sign {
      c := x.Clone();
      assert c.ds[..c.len] == x.ds[..x.len];
      assert c.len > 0 by { ValOne(x.ds[..x.len]); }
      Get2Comp(c);
      TwosVal(c.ds[..c.len], true);
    }
  }

  /** From two's complement back to a sign and a magnitude. */
  method FromTwos(z: Bignum)
    requires z.Valid() && (z.sign || z.len > 0)
    modifies z, z.ds
    ensures z.Valid() && z.Normal() && z.sign == old(z.sign) && (z.ds == old(z.ds) || fresh(z.ds))
    ensures z.Int() == old(Twos(z.ds[..z.len], !z.sign))
  {
    hide Val, Twos, Power;
    TwosVal(z.ds[..z.len], !z.sign);
    if !z.sign { Get2Comp(z); }
    z.Truncate();
  }

  /** The digit above the shorter operand, as each operation computes it. */
  function TailDigit(op: Op, sign: bool, d: Digit): Digit {
    match op
    case And => if sign then 0 else d
    case Or => if sign then d else BIGRAD - 1
    case Xor => if sign then d else BIGRAD - 1 - d
  }

  lemma TailIsOp(op: Op, sign: bool, d: Digit)
    ensures TailDigit(op, sign, d) == DigitOp(op, if sign then 0 else BIGRAD - 1, d)
  {
    Pow2Digit();
    WordExtended(d, BITSPERDIG);
  }

  /** rb_big_and, rb_big_or and rb_big_xor, which differ in the connective, the sign rule and the
      digits above the shorter operand: bit by bit, the connective of the two integers. */
  method BigBitwise(op: Op, x0: Bignum, y0: Bignum) returns (z: Bignum)
    requires Proper(x0) && Proper(y0)
    ensures fresh(z) && fresh(z.ds) && z.Valid() && z.Normal()
    ensures forall n: nat :: Bit(z.Int(), n) == op.Apply(Bit(x0.Int(), n), Bit(y0.Int(), n))
  {
    hide Val, Twos, Bit, Pointwise;
    ghost var X, Y := x0.Int(), y0.Int();
    assert x0.sign || x0.len > 0 by { ValOne(x0.ds[..x0.len]); }
    assert y0.sign || y0.len > 0 by { ValOne(y0.ds[..y0.len]); }
    var y := TwosOperand(y0);
    var x := TwosOperand(x0);
    var short, long := if x.len > y.len then y else x, if x.len > y.len then x else y;
    var positive :=
      match op
      case And => x.sign || y.sign
      case Or => x.sign && y.sign
      case Xor => x.sign == y.sign;
    z := CombineDigits(op, short, long, positive);
    BitwiseResult(op, z.ds[..z.len], short.ds[..short.len], !short.sign, long.ds[..long.len], !long.sign, X, Y);
    FromTwos(z);
  }

  /** The digit loops of the three operations, short being the operand with fewer digits. */
  method CombineDigits(op: Op, short: Bignum, long: Bignum, positive: bool) returns (z: Bignum)
    requires short.Valid() && long.Valid() && short.len <= long.len
    ensures fresh(z) && fresh(z.ds) && z.Valid() && z.len == long.len && z.sign == positive
    ensures Pointwise(op, z.ds[..z.len], short.ds[..short.len], !short.sign, long.ds[..long.len], !long.sign)
  {
    hide Word, TailDigit, DigitOp;
    z := new Bignum(long.len, positive);
    var zds, sign := z.ds, short.sign;
    ghost var ss, ls := short.ds[..short.len], long.ds[..long.len];
    var i := 0;
    while i < short.len
      invariant 0 <= i <= short.len
      invariant forall k :: 0 <= k < i ==> zds[k] == DigitOp(op, SignDigit(ss, k, !sign), SignDigit(ls, k, !long.sign))
      modifies zds
    {
      zds[i] := DigitOp(op, short.ds[i], long.ds[i]);
      i := i + 1;
    }
    while i < long.len
      invariant short.len <= i <= long.len
      invariant forall k :: 0 <= k < i ==> zds[k] == DigitOp(op, SignDigit(ss, k, !sign), SignDigit(ls, k, !long.sign))
      modifies zds
    {
      TailIsOp(op, sign, long.ds[i]);
      zds[i] := TailDigit(op, sign, long.ds[i]);
      i := i + 1;
    }
  }

  lemma BitwiseResult(op: Op, z: seq<Digit>, a: seq<Digit>, na: bool, b: seq<Digit>, nb: bool, X: int, Y: int)
    requires Pointwise(op, z, a, na, b, nb)
    requires (Twos(a, na) == X && Twos(b, nb) == Y) || (Twos(a, na) == Y && Twos(b, nb) == X)
    ensures forall n: nat :: Bit(Twos(z, op.Apply(na, nb)), n) == op.Apply(Bit(X, n), Bit(Y, n))
  {
    assert z[0..] == z && Drop(a, 0) == a && Drop(b, 0) == b;
    forall n: nat
      ensures Bit(Twos(z, op.Apply(na, nb)), n) == op.Apply(Bit(X, n), Bit(Y, n))
    {
      PointwiseBits(op, z, a, na, b, nb, 0, n);
    }
  }

  /** Every bit of -x - 1 is the other one. */
  lemma {:induction false} ComplementBits(x: int, n: nat)
    ensures Bit(-x - 1, n) == !Bit(x, n)
    decreases n
  {
    if n > 0 {
      assert (-x - 1) / 2 == -(x / 2) - 1;
      ComplementBits(x / 2, n - 1);
    }
  }

  lemma ComplementAll(x: int)
    ensures forall n: nat :: Bit(-x - 1, n) == !Bit(x, n)
  {
    forall n: nat ensures Bit(-x - 1, n) == !Bit(x, n) { ComplementBits(x, n); }
  }

  /** rb_big_neg: the complement of every bit, which is -x - 1. */
  method BigNeg(x: Bignum) returns (z: Bignum)
    requires Proper(x)
    ensures fresh(z) && fresh(z.ds) && z.Valid() && z.Normal()
    ensures z.Int() == -x.Int() - 1
    ensures forall n: nat :: Bit(z.Int(), n) == !Bit(x.Int(), n)
  {
    hide Val, Power, Flip, Bit, Twos;
    ComplementAll(x.Int());
    z := x.Clone();
    assert z.ds[..z.len] == x.ds[..x.len];
    var i := x.len;
    if i == 0 {
      ValOne(x.ds[..x.len]);
      z := new Bignum.FromDigit(1, false);
      return;
    }
    if !x.sign { Get2Comp(z); }
    FlipValue(z.ds[..i]);
    FlipDigits(z.ds, i);
    z.sign := !z.sign;
    ValBound(x.ds[..x.len]);
    if x.sign { Get2Comp(z); }
    z.Truncate();
  }

  /** rb_big_aref: the bit of the infinite two's-complement representation, zero below it. */
  method BigAref(x: Bignum, index: int) returns (bit: bool)
    requires Proper(x)
    ensures bit == (index >= 0 && Bit(x.Int(), index))
  {
    hide Val, Twos, Bit, Power;
    if index < 0 { return false; }
    var s1, s2 := index / BITSPERDIG, index % BITSPERDIG;
    ghost var s := x.ds[..x.len];
    if s1 >= x.len {
      HighBits(s, !x.sign, x.Int(), s1, s2);
      return !x.sign;
    }
    var num;
    if !x.sign {
      num := ComplementedDigit(x, s1);
    } else {
      num := x.ds[s1];
      TwosVal(s, false);
      DigitBits(s, false, s1, s2);
    }
    bit := Bit(num, s2);
  }

  /** Above the top digit all bits are the sign. */
  lemma HighBits(s: seq<Digit>, neg: bool, X: int, s1: nat, s2: nat)
    requires |s| <= s1 && s2 < BITSPERDIG && X == Signed(!neg, Val(s)) && (neg ==> Val(s) > 0)
    ensures Bit(X, BITSPERDIG * s1 + s2) == neg
  {
    hide Bit, Val, Power, Pow2;
    ValBound(s);
    PowerMonotone(|s|, s1);
    PowerIsPow2(s1);
    var p := Pow2(BITSPERDIG * s1);
    SignBits(s2);
    if neg {
      BitOfSum(p - Val(s), -1, BITSPERDIG * s1, BITSPERDIG * s1 + s2);
    } else {
      BitOfSum(Val(s), 0, BITSPERDIG * s1, BITSPERDIG * s1 + s2);
    }
  }

  /** Digit s1 of the complement of a negative number's magnitude (the carry into the next digit is
      left on top of it), found from the low end as rb_big_aref does. */
  method ComplementedDigit(x: Bignum, s1: nat) returns (num: nat)
    requires x.Valid() && s1 < x.len
    ensures num <= BIGRAD
    ensures forall s2: nat :: s2 < BITSPERDIG ==> Bit(num, s2) == Bit(0 - x.Mag(), BITSPERDIG * s1 + s2)
  {
    hide Val, Power, Bit, Columns;
    ghost var s := x.ds[..x.len];
    ghost var t := Flip(s);
    ghost var w: seq<Digit> := [];
    ColumnsStart(w, [1], t, 1);
    var i := 0;
    num := 1 + (BIGRAD - 1 - x.ds[0]);
    while i < s1
      invariant 0 <= i <= s1 && |w| == i
      invariant BIGRAD - 1 - x.ds[i] <= num <= BIGRAD - x.ds[i] && (i == 0 ==> num == BIGRAD - x.ds[i])
      invariant Columns(w, [1], t, 1, i, if i == 0 then 0 else num - (BIGRAD - 1 - x.ds[i]))
    {
      ghost var carry := if i == 0 then 0 else num - (BIGRAD - 1 - x.ds[i]);
      ghost var w' := w + [num % BIGRAD];
      assert w'[..i] == w[..i];
      num := num / BIGRAD;
      ColumnsStep(w, w', [1], t, 1, i, carry, num);
      w := w';
      i := i + 1;
      num := num + (BIGRAD - 1 - x.ds[i]);
    }
    ghost var carry := if i == 0 then 0 else num - (BIGRAD - 1 - x.ds[i]);
    ghost var w' := w + [num % BIGRAD];
    assert w'[..i] == w[..i];
    ColumnsStep(w, w', [1], t, 1, i, carry, num / BIGRAD);
    forall s2: nat | s2 < BITSPERDIG ensures Bit(num, s2) == Bit(0 - x.Mag(), BITSPERDIG * s1 + s2) {
      ComplementBit(s, w', num / BIGRAD, s1, s2);
      LowBits(num, s2);
    }
  }

  lemma LowBits(num: nat, k: nat)
    requires k < BITSPERDIG
    ensures Bit(num % BIGRAD, k) == Bit(num, k)
  {
    hide Bit;
    Pow2Digit();
    BitOfSum(num % BIGRAD, num / BIGRAD, BITSPERDIG, k);
  }

  /** The low digits of a complement are digits of the negated number. */
  lemma ComplementBit(s: seq<Digit>, w: seq<Digit>, carry: nat, s1: nat, s2: nat)
    requires s1 < |s| && |w| == s1 + 1 && s2 < BITSPERDIG
    requires Columns(w, [1], Flip(s), 1, s1 + 1, carry)
    ensures Bit(0 - Val(s), BITSPERDIG * s1 + s2) == Bit(w[s1], s2)
  {
    hide *;
    var k := s1 + 1;
    var rest := ComplementSplit(s, w, carry, k);
    LowDigitsBit(w, rest, s1, s2);
  }

  /** Bits within the low digits of a number do not depend on what is above them. */
  lemma LowDigitsBit(w: seq<Digit>, rest: int, s1: nat, s2: nat)
    requires |w| == s1 + 1 && s2 < BITSPERDIG
    ensures Bit(Val(w) + Power(s1 + 1) * rest, BITSPERDIG * s1 + s2) == Bit(w[s1], s2)
  {
    hide Val, Power, Bit, Twos, Pow2;
    ValBound(w);
    PowerIsPow2(s1 + 1);
    BitOfSum(Val(w), rest, BITSPERDIG * (s1 + 1), BITSPERDIG * s1 + s2);
    TwosVal(w, false);
    DigitBits(w, false, s1, s2);
    assert SignDigit(w, s1, false) == w[s1];
  }

  lemma ComplementSplit(s: seq<Digit>, w: seq<Digit>, carry: nat, k: nat) returns (rest: int)
    requires 1 <= k <= |s| && |w| == k && Columns(w, [1], Flip(s), 1, k, carry)
    ensures 0 - Val(s) == Val(w) + Power(k) * rest
  {
    var t := Flip(s);
    rest := carry + (Val(t[k..]) - Power(|s| - k));
    assert Val(w) + Power(k) * carry == 1 + Val(t[..k]) by {
      assert w[..k] == w && Upto(t, k) == t[..k];
      assert Upto([1], k) == [1];
      ValOne([1]);
    }
    hide Val, Power, Columns, Flip;
    FlipValue(s);
    ValSplit(t, k);
    PowerAdd(k, |s| - k);
    MulSub(Power(k), Val(t[k..]), Power(|s| - k));
    MulAdd(Power(k), carry, Val(t[k..]) - Power(|s| - k));
  }

  /** The digits of x times 2^s2, from digit s1 of zds on. */
  method ShiftDigitsUp(zds: array<Digit>, x: Bignum, s1: nat, s2: nat)
    requires x.Valid() && zds.Length == s1 + x.len + 1 && s2 < BITSPERDIG && zds != x.ds
    requires forall k :: 0 <= k < s1 ==> zds[k] == 0
    modifies zds
    ensures forall k :: 0 <= k < s1 ==> zds[k] == 0
    ensures Columns(zds[s1..], [], x.ds[..x.len], Pow2(s2), x.len + 1, 0)
  {
    hide Val, Power, Pow2, Columns;
    var len, i, num := x.len, 0, 0;
    ghost var xs, p := x.ds[..len], Pow2(s2);
    Pow2Half(s2);
    ColumnsStart(zds[s1..], [], xs, p);
    while i < len
      invariant 0 <= i <= len && 0 <= num < p
      invariant forall k :: 0 <= k < s1 ==> zds[k] == 0
      invariant Columns(zds[s1..], [], xs, p, i, num)
    {
      ghost var before, num0 := zds[s1..], num;
      ShiftFits(x.ds[i], p, num);
      num := num + x.ds[i] * Pow2(s2);
      zds[s1 + i] := num % BIGRAD;
      num := num / BIGRAD;
      ColumnsStep(before, zds[s1..], [], xs, p, i, num0, num);
      i := i + 1;
    }
    ghost var before := zds[s1..];
    zds[s1 + i] := num % BIGRAD;
    ColumnsStep(before, zds[s1..], [], xs, p, i, num, 0);
  }

  /** big_lshift: multiplication by a power of two, keeping the sign. */
  method BigLShift(x: Bignum, shift: nat) returns (z: Bignum)
    requires x.Valid()
    ensures fresh(z) && fresh(z.ds) && z.Valid() && z.Normal()
    ensures z.Int() == x.Int() * Pow2(shift) && z.sign == x.sign
  {
    hide Val, Power, Pow2, Columns;
    var s1, s2 := shift / BITSPERDIG, shift % BITSPERDIG;
    var len := x.len;
    z := new Bignum(len + s1 + 1, x.sign);
    var zds := z.ds;
    forall i | 0 <= i < s1 { zds[i] := 0; }
    ShiftDigitsUp(zds, x, s1, s2);
    ghost var xs := x.ds[..len];
    assert zds[..][s1..] == zds[s1..] && zds[..] == z.ds[..z.len];
    LeftShifted(zds[..], xs, s1, s2);
    ShiftProduct(s1, s2, Val(xs), x.sign);
    z.Truncate();
  }

  lemma LeftShifted(z: seq<Digit>, x: seq<Digit>, s1: nat, s2: nat)
    requires |z| == s1 + |x| + 1 && forall k :: 0 <= k < s1 ==> z[k] == 0
    requires Columns(z[s1..], [], x, Pow2(s2), |x| + 1, 0)
    ensures Val(z) == Power(s1) * (Pow2(s2) * Val(x))
  {
    hide Power, Pow2, Columns;
    ColumnsDone(z[s1..], [], x, Pow2(s2), 0);
    ValZero(z[..s1]);
    ValSplit(z, s1);
  }

  lemma ShiftProduct(s1: nat, s2: nat, v: nat, sign: bool)
    ensures Power(s1) * (Pow2(s2) * v) == Pow2(BITSPERDIG * s1 + s2) * v
    ensures Signed(sign, Power(s1) * (Pow2(s2) * v)) == Signed(sign, v) * Pow2(BITSPERDIG * s1 + s2)
  {
    hide Power, Pow2;
    PowerIsPow2(s1);
    Pow2Add(BITSPERDIG * s1, s2);
    MulAssoc(Pow2(BITSPERDIG * s1), Pow2(s2), v);
  }

  /** big_rshift: division by a power of two, rounded towards minus infinity for both signs. */
  method BigRShift(x0: Bignum, shift: nat) returns (z: Bignum)
    requires Proper(x0)
    ensures fresh(z) && fresh(z.ds) && z.Valid() && z.Normal()
    ensures z.Int() == x0.Int() / Pow2(shift)
  {
    hide Val, Twos, Pow2, Power;
    var s1, s2 := shift / BITSPERDIG, shift % BITSPERDIG;
    if s1 > x0.len {
      ShiftedOut(x0.ds[..x0.len], x0.sign, s1, s2);
      z := new Bignum.FromDigit(if x0.sign then 0 else 1, x0.sign);
      return;
    }
    var x := TwosOperand(x0);
    if x.len == s1 {
      ShiftedOut(x0.ds[..x0.len], x0.sign, s1, s2);
      z := new Bignum.FromDigit(if x.sign then 0 else 1, x.sign);
      return;
    }
    z := ShiftDigits(x, s1, s2);
    FloorShift(x.ds[..x.len], !x.sign, s1, s2, z.ds[..z.len]);
    FromTwos(z);
  }

  /** The digit loop of big_rshift, on an operand in two's complement. */
  method ShiftDigits(x: Bignum, s1: nat, s2: nat) returns (z: Bignum)
    requires x.Valid() && s1 < x.len && s2 < BITSPERDIG
    ensures fresh(z) && fresh(z.ds) && z.Valid() && z.sign == x.sign && z.len == x.len - s1
    ensures ShiftedDown(z.ds[..z.len], x.ds[s1..x.len], 0, Pow2(s2), !x.sign)
  {
    hide Val, Twos, ShiftedDown, Pow2;
    var i, j, neg := x.len, x.len - s1, !x.sign;
    z := new Bignum(j, x.sign);
    var zds := z.ds;
    ghost var z0, D, E := x.ds[s1..x.len], Pow2(s2), Pow2(BITSPERDIG - s2);
    Pow2Half(s2);
    ShiftedDownAbove(zds[..], z0, D, E, neg);
    var num := if neg then BIGRAD * (BIGRAD - 1) else 0;
    while j > 0
      invariant 0 <= j <= zds.Length && i == j + s1
      invariant num == BIGRAD * SignDigit(z0, j, neg)
      invariant ShiftedDown(zds[..], z0, j, D, neg)
      modifies zds
    {
      ghost var before := zds[..];
      i := i - 1;
      j := j - 1;
      num := (num + x.ds[i]) / Pow2(s2);
      zds[j] := num % BIGRAD;
      num := BIGRAD * x.ds[i];
      ShiftedDownStep(before, zds[..], z0, j, D, E, neg);
    }
    assert zds[..] == z.ds[..z.len];
  }

  lemma ShiftedDownAbove(z: seq<Digit>, z0: seq<Digit>, D: nat, E: nat, neg: bool)
    requires |z| == |z0| && D > 0 && D * E == BIGRAD
    ensures ShiftedDown(z, z0, |z|, D, neg)
  {
    ShiftedDownStart(z0, D, E, neg);
    assert z[|z|..] == z0[|z|..];
  }

  /** Dropping s1 digits and shifting by s2 bits is the floor of a division. */
  lemma FloorShift(s: seq<Digit>, neg: bool, s1: nat, s2: nat, z: seq<Digit>)
    requires s1 < |s| && s2 < BITSPERDIG && |z| == |s| - s1
    requires ShiftedDown(z, s[s1..], 0, Pow2(s2), neg)
    ensures Twos(z, neg) == Twos(s, neg) / Pow2(BITSPERDIG * s1 + s2)
  {
    hide Val, Twos, Pow2, Power;
    var D := Pow2(s2);
    assert z[0..] == z && s[s1..][0..] == s[s1..];
    var mid, low := Twos(s[s1..], neg), Val(s[..s1]);
    TwosCut(s, s1, neg);
    ValBound(s[..s1]);
    PowerIsPow2(s1);
    Pow2Add(BITSPERDIG * s1, s2);
    var m := SignDigit(s[s1..], 0, neg) % D;
    DivMod(SignDigit(s[s1..], 0, neg), D);
    FloorTwice(Twos(s, neg), Power(s1), D, mid, low, Twos(z, neg), m);
  }

  lemma FloorTwice(t: int, p: nat, D: nat, mid: int, low: nat, q: int, m: nat)
    requires t == low + p * mid && low < p && mid == D * q + m && m < D
    ensures p * D > 0 && q == t / (p * D)
  {
    MulAdd(p, D * q, m);
    MulAssoc(p, D, q);
    MulLe(m + 1, D, p);
    MulAdd(p, m, 1);
    MulLt(0, p, D);
    FloorUnique(t, p * D, q, low + p * m);
  }

  lemma FloorUnique(t: int, v: nat, q: int, r: nat)
    requires v > 0 && t == v * q + r && r < v
    ensures q == t / v
  {
    var d, m := t / v, t % v;
    assert t == v * d + m;
    MulSub(v, d, q);
    if d > q {
      MulLe(1, d - q, v);
    } else if d < q {
      MulLe(d - q, -1, v);
    }
  }

  lemma TwosCut(s: seq<Digit>, k: nat, neg: bool)
    requires k <= |s|
    ensures Twos(s, neg) == Val(s[..k]) + Power(k) * Twos(s[k..], neg)
  {
    hide Val, Power, Twos;
    TwosVal(s, neg);
    TwosVal(s[k..], neg);
    ValSplit(s, k);
    PowerAdd(k, |s| - k);
    MulSub(Power(k), Val(s[k..]), if neg then Power(|s| - k) else 0);
  }

  /** A shift by all digits or more leaves only the sign. */
  lemma ShiftedOut(s: seq<Digit>, sign: bool, s1: nat, s2: nat)
    requires |s| <= s1 && (sign || Val(s) > 0)
    ensures Signed(sign, Val(s)) / Pow2(BITSPERDIG * s1 + s2) == if sign then 0 else -1
  {
    hide Val, Power, Pow2;
    ValBound(s);
    PowerMonotone(|s|, s1);
    PowerIsPow2(s1);
    Pow2Add(BITSPERDIG * s1, s2);
    MulLe(1, Pow2(s2), Power(s1));
    var p := Pow2(BITSPERDIG * s1 + s2);
    if sign {
      FloorUnique(Val(s), p, 0, Val(s));
    } else {
      FloorUnique(0 - Val(s), p, -1, p - Val(s));
    }
  }

  /** rb_big_lshift and rb_big_rshift on a word-sized count: a negative count shifts the other way. */
  method ShiftLeft(x: Bignum, count: int) returns (z: Bignum)
    requires Proper(x)
    ensures fresh(z) && fresh(z.ds) && z.Valid() && z.Normal()
    ensures z.Int() == if count >= 0 then x.Int() * Pow2(count) else x.Int() / Pow2(-count)
  {
    if count < 0 { z := BigRShift(x, -count); } else { z := BigLShift(x, count); }
  }

  /** SIZEOF_LONG / SIZEOF_BDIGITS: how many digits a count may have. */
  const DIGSPERLONG: nat := 1

  /** rb_big_lshift (up) and rb_big_rshift on a count that is a bignum itself, negative ones shifting the
      other way. Up, a count of more digits than a long is a range error; down, all that is left then is
      the sign. */
  method ShiftByBig(x: Bignum, y: Bignum, up: bool) returns (ok: bool, z: Bignum)
    requires Proper(x) && y.Valid()
    ensures ok <==> y.sign != up || y.len <= DIGSPERLONG
    ensures z.Valid() && z.Normal()
    ensures ok && y.sign == up ==> z.Int() == x.Int() * Pow2(y.Mag())
    ensures y.sign != up && (x.len == 0 || y.len <= DIGSPERLONG) ==> z.Int() == x.Int() / Pow2(y.Mag())
    ensures y.sign != up && x.len > 0 && y.len > DIGSPERLONG ==> z.Int() == if x.sign then 0 else -1
  {
    hide Val, Pow2;
    ok := true;
    if y.sign != up {
      if x.len == 0 {
        z := new Bignum.FromDigit(0, true);
        NothingShifted(x, y.Mag());
      } else if y.len > DIGSPERLONG {
        z := new Bignum.FromDigit(if x.sign then 0 else 1, x.sign);
      } else {
        z := BigRShift(x, CountOf(y));
      }
    } else if y.len > DIGSPERLONG {
      ok := false;
      z := new Bignum.FromDigit(0, true);
    } else {
      z := BigLShift(x, CountOf(y));
    }
  }

  /** big2ulong of at most one digit. */
  function CountOf(y: Bignum): (n: nat)
    requires y.Valid() && y.len <= DIGSPERLONG
    reads y, y.ds
    ensures n == y.Mag()
  {
    ValOne(y.ds[..y.len]);
    if y.len == 0 then 0 else y.ds[0]
  }

  lemma NothingShifted(x: Bignum, n: nat)
    requires x.Valid() && x.len == 0
    ensures x.Int() / Pow2(n) == 0
  {
    assert x.ds[..0] == [];
    FloorUnique(0, Pow2(n), 0, 0);
  }

  /** Leaving only the sign is the shift exactly for numbers of no more bits than the count. */
  lemma OnlySign(x: int, n: nat)
    ensures x / Pow2(n) == (if x >= 0 then 0 else -1) <==> 0 - Pow2(n) <= x < Pow2(n)
  {
    hide Pow2;
    var p, q, r := Pow2(n), x / Pow2(n), x % Pow2(n);
    assert x == q * p + r;
    if 0 - p <= x < p {
      if x >= 0 { FloorUnique(x, p, 0, x); } else { FloorUnique(x, p, -1, x + p); }
    }
  }

  /** Shifting left and then right by the same count gives the number back. */
  lemma ShiftRoundTrip(x: int, n: nat)
    ensures (x * Pow2(n)) / Pow2(n) == x
  {
    FloorUnique(x * Pow2(n), Pow2(n), x, 0);
  }

  /** A left shift moves every bit up, a right shift moves every bit down. */
  lemma {:induction false} ShiftMovesBits(x: int, s: nat, n: nat)
    ensures Bit(x * Pow2(s), n) == (n >= s && Bit(x, n - s))
    ensures Bit(x / Pow2(s), n) == Bit(x, n + s)
  {
    hide Bit, Pow2;
    BitOfSum(0, x, s, n);
    ZeroBits(n);
    assert 0 + Pow2(s) * x == x * Pow2(s);
    BitsAbove(x, Pow2(s), s, n);
  }

  lemma BitsAbove(x: int, p: nat, s: nat, n: nat)
    requires p == Pow2(s)
    ensures Bit(x / p, n) == Bit(x, n + s)
  {
    hide Bit, Pow2;
    DivMod2(x, p);
    BitOfSum(x % p, x / p, s, n + s);
  }

  lemma ZeroBits(n: nat)
    ensures !Bit(0, n)
  {
    SignBits(n);
  }

  lemma DivMod2(x: int, v: nat)
    requires v > 0
    ensures x == x % v + v * (x / v) && 0 <= x % v < v
  {
  }
}
