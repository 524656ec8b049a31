/** bigdivrem1 of bignum.c: schoolbook long division in one digit buffer (Knuth,
    The Art of Computer Programming vol. 2, section 4.3.1, Algorithm D). */
module LongDivision {
  import opened Digits
  import opened Arith

  /** The trial digit: at most two digits of the dividend over the divisor's top digit. */
  function TrialDigit(high: Digit, next: Digit, top: Digit): (q: Digit)
    requires high <= top && top != 0
  {
    if high == top then BIGRAD - 1 else (BIGRAD * high + next) / top
  }

  /** The trial digit is the quotient of the leading digits, cut off at BIGRAD - 1. */
  lemma TrialBounds(high: Digit, next: Digit, top: Digit)
    requires high <= top && top != 0
    ensures var q, lead := TrialDigit(high, next, top), BIGRAD * high + next;
            q * top <= lead && (lead < (q + 1) * top || q == BIGRAD - 1)
  {
    var q, lead := TrialDigit(high, next, top), BIGRAD * high + next;
    MulAdd(top, q, 1);
    if high < top {
      assert lead == q * top + lead % top;
    }
  }

  /** Never too small. */
  lemma TrialNotTooSmall(U: nat, V: nat, p: nat, lead: nat, top: nat, q: nat)
    requires p * top <= V && U < p * (lead + 1)
    requires lead < (q + 1) * top
    ensures U < (q + 1) * V
  {
    MulLe(lead + 1, (q + 1) * top, p);
    MulAssoc(p, q + 1, top);
    assert p * ((q + 1) * top) == (q + 1) * (p * top);
    MulLe(p * top, V, q + 1);
  }

  /** The multiplied-out trial digit exceeds the window by less than BIGRAD * p. */
  lemma TrialExcess(U: nat, V: nat, p: nat, vr: nat, lead: nat, top: nat, q: nat)
    requires V == vr + p * top && vr < p && p * lead <= U
    requires q * top <= lead && q < BIGRAD
    ensures q * V - U < BIGRAD * p
  {
    MulAdd(q, vr, p * top);
    MulAssoc(q, p, top);
    MulLe(q * top, lead, p);
    assert p * (q * top) == q * (p * top);
    MulLe(vr, p, q);
    MulLe(q, BIGRAD - 1, p);
    MulSub(p, BIGRAD, 1);
  }

  /** At most two too big. */
  lemma TrialNotTooBig(U: nat, V: nat, p: nat, top: nat, q: nat)
    requires p * top <= V && q * V - U < BIGRAD * p && BIGRAD <= 2 * top
    ensures (q - 2) * V <= U
  {
    MulLe(BIGRAD, 2 * top, p);
    MulAssoc(2, p, top);
    MulSub(V, q, 2);
  }

  /** The value of a buffer of n + 2 digits or more from its two leading digits. */
  lemma TopTwo(u: seq<Digit>, n: nat)
    requires |u| == n + 2
    ensures Val(u) == Val(u[..n]) + Power(n) * (BIGRAD * u[n + 1] + u[n])
    ensures Val(u[..n]) < Power(n)
  {
    ValSplit(u, n);
    assert u[n..] == [u[n], u[n + 1]];
    assert Val([u[n + 1]]) == u[n + 1];
    assert [u[n], u[n + 1]][1..] == [u[n + 1]];
    ValBound(u[..n]);
  }

  lemma TopOne(u: seq<Digit>, n: nat)
    requires |u| == n + 1
    ensures Val(u) == Val(u[..n]) + Power(n) * u[n]
    ensures Val(u[..n]) < Power(n)
  {
    assert u == u[..n] + [u[n]];
    ValSnoc(u[..n], u[n]);
    ValBound(u[..n]);
  }

  /** A number below another of the same length has no larger top digit. */
  lemma TopAtMost(a: seq<Digit>, b: seq<Digit>)
    requires |a| == |b| >= 1 && Val(a) < Val(b)
    ensures a[|a| - 1] <= b[|b| - 1]
  {
    hide Val, Power;
    var n := |a| - 1;
    TopOne(a, n);
    TopOne(b, n);
    LeadAtMost(Power(n), Val(a[..n]), a[n], Val(b[..n]), b[n]);
  }

  lemma LeadAtMost(p: nat, low: nat, high: nat, low': nat, high': nat)
    requires low' < p && low + p * high < low' + p * high'
    ensures high <= high'
  {
    if high > high' {
      MulLe(high' + 1, high, p);
      MulAdd(p, high', 1);
    }
  }

  /** Knuth's Theorem B. For a divisor v with its top bit set and a dividend window u whose
      leading digits are below v, the trial digit is never too small, at most two too big, and
      multiplying it out exceeds the window by less than one unit of the high digit. */
  lemma TheoremB(u: seq<Digit>, v: seq<Digit>)
    requires 1 <= |v| && |u| == |v| + 1 && 2 * v[|v| - 1] >= BIGRAD
    requires Val(u[1..]) < Val(v)
    ensures u[|v|] <= v[|v| - 1]
    ensures var q := TrialDigit(u[|v|], u[|v| - 1], v[|v| - 1]);
            && (q - 2) * Val(v) <= Val(u) < (q + 1) * Val(v)
            && q * Val(v) - Val(u) < Power(|v|)
  {
    hide TrialDigit, Val;
    var n := |v| - 1;
    assert u[n + 1] <= v[n] by {
      TopAtMost(u[1..], v);
    }
    LeadingBelow(u, Val(v));
    TopOne(v, n);
    TopTwo(u, n);
    TrialCore(Val(u), Val(v), Power(n), Val(u[..n]), Val(v[..n]), u[n + 1], u[n], v[n]);
  }

  lemma LeadingBelow(u: seq<Digit>, V: nat)
    requires 1 <= |u| && Val(u[1..]) < V
    ensures Val(u) < BIGRAD * V
  {
  }

  /** Theorem B on numbers. */
  lemma TrialCore(U: nat, V: nat, p: nat, ur: nat, vr: nat, high: Digit, next: Digit, top: Digit)
    requires ur < p && vr < p && high <= top && BIGRAD <= 2 * top && 0 < V
    requires U == ur + p * (BIGRAD * high + next) && V == vr + p * top && U < BIGRAD * V
    ensures var q := TrialDigit(high, next, top);
            (q - 2) * V <= U < (q + 1) * V && q * V - U < BIGRAD * p
  {
    var q, lead := TrialDigit(high, next, top), BIGRAD * high + next;
    TrialBounds(high, next, top);
    assert U == ur + p * lead;
    MulAdd(p, lead, 1);
    TrialExcess(U, V, p, vr, lead, top, q);
    TrialNotTooBig(U, V, p, top, q);
    if q < BIGRAD - 1 {
      TrialNotTooSmall(U, V, p, lead, top, q);
    }
  }

  /** One column of multiply-and-subtract: column sums stay in step with the values. */
  lemma MulSubColumn(w: nat, z: int, y: int, q: int, num: int, num': int, t2: int, t2': int, d: int, lo: int)
    requires t2 + y * q == lo + BIGRAD * t2' && z + num - lo == d + BIGRAD * num'
    ensures w * d + (BIGRAD * w) * (num' - t2') == w * z - q * (w * y) + w * (num - t2)
  {
    assert d + BIGRAD * (num' - t2') == z - y * q + (num - t2);
    MulAdd(w, d, BIGRAD * (num' - t2'));
    MulAssoc(w, BIGRAD, num' - t2');
    MulAdd(w, z - y * q, num - t2);
    MulSub(w, z, y * q);
    MulAssoc(w, y, q);
  }

  /** The running equation of multiply-and-subtract after i columns. */
  ghost predicate Subtracted(z0: seq<Digit>, z: seq<Digit>, y: seq<Digit>, off: nat, i: nat, q: int, num: int, t2: int)
    requires off + i <= |z0| == |z| && i <= |y|
  {
    Val(z[off..off + i]) + Power(i) * (num - t2) == Val(z0[off..off + i]) - q * Val(y[..i])
  }

  lemma SubtractedStep(z0: seq<Digit>, z: seq<Digit>, z': seq<Digit>, y: seq<Digit>, off: nat, i: nat, q: int,
                       num: int, t2: int, lo: int, num': int, t2': int)
    requires off + i < |z0| == |z| == |z'| && i < |y|
    requires Subtracted(z0, z, y, off, i, q, num, t2)
    requires z'[off..off + i] == z[off..off + i]
    requires t2 + y[i] * q == lo + BIGRAD * t2' && z0[off + i] + num - lo == z'[off + i] + BIGRAD * num'
    ensures Subtracted(z0, z', y, off, i + 1, q, num', t2')
  {
    var w := Power(i);
    assert Power(i + 1) == BIGRAD * w;
    hide Val, Power;
    MulSubColumn(w, z0[off + i], y[i], q, num, num', t2, t2', z'[off + i], lo);
    ValWindow(z', off, i);
    ValWindow(z0, off, i);
    assert y[0..i] == y[..i] && y[0..i + 1] == y[..i + 1];
    ValWindow(y, 0, i);
    MulAdd(q, Val(y[..i]), w * y[i]);
  }

  lemma SubtractedDone(z0: seq<Digit>, z: seq<Digit>, y: seq<Digit>, off: nat, ny: nat, q: int, num: int, t2: int)
    requires off + ny < |z0| == |z| && ny <= |y| && z[off + ny] == z0[off + ny]
    requires Subtracted(z0, z, y, off, ny, q, num, t2)
    ensures Val(z[off..off + ny]) + Power(ny) * (num + z[off + ny] - t2)
            == Val(z0[off..off + ny + 1]) - q * Val(y[..ny])
  {
    ValWindow(z0, off, ny);
    MulAdd(Power(ny), num - t2, z[off + ny]);
  }

  lemma SubtractedStart(z: seq<Digit>, y: seq<Digit>, off: nat, i: nat, q: int)
    requires off + i <= |z| && i <= |y| && forall k :: 0 <= k < i ==> y[k] == 0
    ensures Subtracted(z, z, y, off, i, q, 0, 0)
  {
    ValZero(y[..i]);
  }

  /** One turn of the loop: a digit of the window less the low half of the product, and both carries. */
  method SubtractDigit(zds: array<Digit>, at: nat, yd: Digit, q: Digit, num0: int, t20: nat)
    returns (num: int, t2: nat, ghost lo: int)
    requires at < zds.Length && (num0 == 0 || num0 == -1) && t20 < BIGRAD
    modifies zds
    ensures zds[..] == old(zds[..])[at := zds[at]] && (num == 0 || num == -1) && t2 < BIGRAD
    ensures t20 + yd * q == lo + BIGRAD * t2 && old(zds[at]) + num0 - lo == zds[at] + BIGRAD * num
  {
    MulDigits(yd, q);
    t2 := t20 + yd * q;
    assert t2 < BIGRAD * BIGRAD;  // fits BDIGIT_DBL
    lo := t2 % BIGRAD;
    var ee := num0 - t2 % BIGRAD;
    num := zds[at] + ee;
    if ee != 0 { zds[at] := num % BIGRAD; }
    num := num / BIGRAD;
    t2 := t2 / BIGRAD;
  }

  /** The inner multiply-and-subtract loop: subtracts q times the divisor from the window that
      starts at off, leaving the high digit alone, and returns what that digit would become. */
  method MultiplyAndSubtract(zds: array<Digit>, yds: array<Digit>, off: nat, ny: nat, nyzero: nat, q: Digit)
    returns (num: int)
    requires zds != yds && ny <= yds.Length && nyzero < ny && off + ny < zds.Length
    requires forall k :: 0 <= k < nyzero ==> yds[k] == 0
    modifies zds
    ensures zds[..off] == old(zds[..off]) && zds[off + ny..] == old(zds[off + ny..])
    ensures Val(zds[off..off + ny]) + Power(ny) * num
            == old(Val(zds[off..off + ny + 1])) - q * Val(yds[..ny])
  {
    hide Val, Power, Subtracted;
    ghost var z0, y := zds[..], yds[..];
    var i := nyzero;
    num := 0;
    var t2: nat := 0;
    SubtractedStart(z0, y, off, i, q);
    while i < ny
      invariant nyzero <= i <= ny
      invariant num == 0 || num == -1
      invariant t2 < BIGRAD
      invariant forall k :: 0 <= k < zds.Length && !(off <= k < off + i) ==> zds[k] == z0[k]
      invariant Subtracted(z0, zds[..], y, off, i, q, num, t2)
    {
      ghost var before, num0, t20, lo := zds[..], num, t2, 0;
      num, t2, lo := SubtractDigit(zds, off + i, yds[i], q, num, t2);
      SubtractedStep(z0, before, zds[..], y, off, i, q, num0, t20, lo, num, t2);
      i := i + 1;
    }
    SubtractedDone(z0, zds[..], y, off, ny, q, num, t2);
    num := num + zds[off + ny] - t2;
    assert y[..ny] == yds[..ny];
    assert zds[..][off..off + ny] == zds[off..off + ny];
    assert z0[off..off + ny + 1] == old(zds[off..off + ny + 1]);
  }

  lemma AddColumn(w: nat, z: int, y: int, num: int, d: int, num': int)
    requires z + y + num == d + BIGRAD * num'
    ensures w * d + (BIGRAD * w) * num' == w * z + w * y + w * num
  {
    MulAdd(w, z + y, num);
    MulAdd(w, z, y);
    MulAdd(w, d, BIGRAD * num');
    MulAssoc(w, BIGRAD, num');
  }

  /** The running equation of add-back after i columns. */
  ghost predicate AddedBack(z0: seq<Digit>, z: seq<Digit>, y: seq<Digit>, off: nat, i: nat, num: int)
    requires off + i <= |z0| == |z| && i <= |y|
  {
    Val(z[off..off + i]) + Power(i) * num == Val(z0[off..off + i]) + Val(y[..i])
  }

  lemma AddedBackStep(z0: seq<Digit>, z: seq<Digit>, z': seq<Digit>, y: seq<Digit>, off: nat, i: nat, num: int,
                      num': int)
    requires off + i < |z0| == |z| == |z'| && i < |y|
    requires AddedBack(z0, z, y, off, i, num)
    requires z'[off..off + i] == z[off..off + i]
    requires z0[off + i] + y[i] + num == z'[off + i] + BIGRAD * num'
    ensures AddedBack(z0, z', y, off, i + 1, num')
  {
    var w := Power(i);
    ValWindow(z', off, i);
    ValWindow(z0, off, i);
    assert y[0..i] == y[..i] && y[0..i + 1] == y[..i + 1];
    ValWindow(y, 0, i);
    AddColumn(w, z0[off + i], y[i], num, z'[off + i], num');
  }

  /** The inner add-back loop: adds the divisor to the window and returns the carry out. */
  method AddBack(zds: array<Digit>, yds: array<Digit>, off: nat, ny: nat) returns (num: int)
    requires zds != yds && 0 < ny <= yds.Length && off + ny < zds.Length
    modifies zds
    ensures zds[..off] == old(zds[..off]) && zds[off + ny..] == old(zds[off + ny..])
    ensures num == 0 || num == 1
    ensures Val(zds[off..off + ny]) + Power(ny) * num == old(Val(zds[off..off + ny])) + Val(yds[..ny])
  {
    ghost var z0, y := zds[..], yds[..];
    var i := 0;
    num := 0;
    while i < ny
      invariant 0 <= i <= ny
      invariant num == 0 || num == 1
      invariant forall k :: 0 <= k < zds.Length && !(off <= k < off + i) ==> zds[k] == z0[k]
      invariant AddedBack(z0, zds[..], y, off, i, num)
    {
      ghost var before, num0 := zds[..], num;
      var ee := num + yds[i];
      num := zds[off + i] + ee;
      if ee != 0 { zds[off + i] := num % BIGRAD; }
      num := num / BIGRAD;
      AddedBackStep(z0, before, zds[..], y, off, i, num0, num);
      i := i + 1;
    }
    assert y[..ny] == yds[..ny];
    assert zds[..][off..off + ny] == zds[off..off + ny];
    assert z0[off..off + ny] == old(zds[off..off + ny]);
  }

  /** After multiplying out a trial digit the borrow is at most one. */
  lemma BorrowAtMostOne(W: nat, Y: nat, q: nat, p: nat, low: nat, num: int)
    requires Y < p && low < p && low + p * num == W - q * Y
    requires W < (q + 1) * Y && q * Y - W < p
    ensures num == 0 || num == -1
  {
    MulAdd(Y, q, 1);
    if num >= 1 {
      MulLe(1, num, p);
    } else if num <= -2 {
      MulLe(num, -2, p);
    }
  }

  /** A pending borrow means the digit is still too big; none means it is the quotient digit. */
  lemma BorrowDecides(W: nat, Y: nat, q: nat, p: nat, low: nat, num: int)
    requires low < p && low + p * num == W - q * Y && W < (q + 1) * Y
    requires num == 0 || num == -1
    ensures num == -1 ==> W < q * Y && low + Y - p == W - (q - 1) * Y
    ensures num == 0 ==> low < Y && W == q * Y + low
  {
    MulSub(Y, q, 1);
    MulAdd(Y, q, 1);
  }

  lemma BacksBounded(W: nat, Y: nat, trial: int, q: int, backs: nat)
    requires (trial - 2) * Y <= W < q * Y && q + backs == trial
    ensures backs < 2
  {
    if backs >= 2 {
      MulLe(q, trial - 2, Y);
    }
  }

  /** The "add back" loop: lowers the digit until the borrow is gone. */
  method Correct(zds: array<Digit>, yds: array<Digit>, off: nat, ny: nat, trial: Digit, borrow: int, ghost W: nat)
    returns (q: Digit, ghost backs: nat)
    requires zds != yds && 1 <= ny <= yds.Length && off + ny < zds.Length
    requires borrow == 0 || borrow == -1
    requires (trial - 2) * Val(yds[..ny]) <= W < (trial + 1) * Val(yds[..ny])
    requires Val(zds[off..off + ny]) + Power(ny) * borrow == W - trial * Val(yds[..ny])
    modifies zds
    ensures zds[..off] == old(zds[..off]) && zds[off + ny..] == old(zds[off + ny..])
    ensures W == q * Val(yds[..ny]) + Val(zds[off..off + ny]) && Val(zds[off..off + ny]) < Val(yds[..ny])
    ensures q + backs == trial && backs <= 2
  {
    hide Val, Power;
    ghost var Y, p := Val(yds[..ny]), Power(ny);
    var num := borrow;
    q := trial;
    backs := 0;
    while num != 0
      invariant num == 0 || num == -1
      invariant Val(zds[off..off + ny]) + p * num == W - q * Y
      invariant W < (q + 1) * Y && q + backs == trial && backs <= 2
      invariant zds[..off] == old(zds[..off]) && zds[off + ny..] == old(zds[off + ny..])
      decreases q
    {
      ghost var low := Val(zds[off..off + ny]);
      ValBound(zds[off..off + ny]);
      BorrowDecides(W, Y, q, p, low, num);
      BacksBounded(W, Y, trial, q, backs);
      PositiveProduct(W, q, Y);
      q := q - 1;
      num := AddBack(zds, yds, off, ny);
      MulSub(p, num, 1);
      num := num - 1;
      backs := backs + 1;
    }
    ValBound(zds[off..off + ny]);
    BorrowDecides(W, Y, q, p, Val(zds[off..off + ny]), num);
  }

  lemma PositiveProduct(w: nat, q: nat, y: nat)
    requires w < q * y
    ensures q > 0
  {
  }

  /** One quotient digit: replaces the window at j - ny .. j by its remainder modulo the divisor,
      and digit j by the quotient digit; the add-back loop runs at most twice. */
  method DivideDigit(zds: array<Digit>, yds: array<Digit>, j: nat, ny: nat, nyzero: nat) returns (ghost backs: nat)
    requires zds != yds && 1 <= ny <= yds.Length && nyzero < ny <= j < zds.Length
    requires forall k :: 0 <= k < nyzero ==> yds[k] == 0
    requires 2 * yds[ny - 1] >= BIGRAD
    requires Val(zds[j - ny + 1..j + 1]) < Val(yds[..ny])
    modifies zds
    ensures zds[..j - ny] == old(zds[..j - ny]) && zds[j + 1..] == old(zds[j + 1..])
    ensures Val(zds[j - ny..j]) < Val(yds[..ny])
    ensures old(Val(zds[j - ny..j + 1])) == zds[j] * Val(yds[..ny]) + Val(zds[j - ny..j])
    ensures backs <= 2
  {
    hide Val;
    ghost var u, v := zds[j - ny..j + 1], yds[..ny];
    ghost var W, Y := Val(u), Val(v);
    assert u[1..] == zds[j - ny + 1..j + 1];
    TheoremB(u, v);
    ValBound(v);
    var q := if zds[j] == yds[ny - 1] then BIGRAD - 1 else (BIGRAD * zds[j] + zds[j - 1]) / yds[ny - 1];
    assert q == TrialDigit(u[ny], u[ny - 1], v[ny - 1]);
    backs := 0;
    if q != 0 {
      var num := MultiplyAndSubtract(zds, yds, j - ny, ny, nyzero, q);
      ValBound(zds[j - ny..j]);
      BorrowAtMostOne(W, Y, q, Power(ny), Val(zds[j - ny..j]), num);
      q, backs := Correct(zds, yds, j - ny, ny, q, num, W);
    } else {
      QuotientZero(u, Y);
      assert u[..ny] == zds[j - ny..j];
    }
    zds[j] := q;
  }

  lemma QuotientZero(u: seq<Digit>, Y: nat)
    requires |u| >= 1 && Val(u) < Y < Power(|u| - 1)
    ensures Val(u) == Val(u[..|u| - 1])
  {
    var n := |u| - 1;
    TopOne(u, n);
    if u[n] >= 1 {
      MulLe(1, u[n], Power(n));
    }
  }

  /** Digits k.. of z hold quotient digits, digits ..k what is left of the dividend Z. */
  ghost predicate Divided(Z: nat, z: seq<Digit>, k: nat, ny: nat, Y: nat)
    requires ny <= k <= |z|
  {
    Z == Val(z[k..]) * Power(k - ny) * Y + Val(z[..k])
  }

  lemma DividedStep(Z: nat, z: seq<Digit>, z': seq<Digit>, j: nat, ny: nat, Y: nat)
    requires ny <= j < |z| == |z'|
    requires Divided(Z, z, j + 1, ny, Y)
    requires z'[..j - ny] == z[..j - ny] && z'[j + 1..] == z[j + 1..]
    requires Val(z[j - ny..j + 1]) == z'[j] * Y + Val(z'[j - ny..j])
    ensures Divided(Z, z', j, ny, Y)
  {
    hide Val;
    var off := j - ny;
    var p, q, low, rest := Power(off), z'[j], Val(z'[off..j]), Val(z[j + 1..]);
    SplitAt(z, off, j + 1);
    SplitAt(z', off, j);
    assert Val(z'[j..]) == q + BIGRAD * rest by {
      HeadOf(z', j);
    }
    assert Power(off + 1) == BIGRAD * p;
    QuotientShift(p, q, rest, Y, low);
  }

  lemma QuotientShift(p: nat, q: nat, rest: nat, Y: nat, low: nat)
    ensures (q + BIGRAD * rest) * p * Y + p * low == rest * (BIGRAD * p) * Y + p * (q * Y + low)
  {
    MulAdd(p, q, BIGRAD * rest);
    MulAdd(Y, q * p, BIGRAD * rest * p);
    MulAdd(p, q * Y, low);
    MulAssoc(q, p, Y);
    MulAssoc(BIGRAD, rest, p);
    MulAssoc(rest, BIGRAD, p);
  }

  /** Between two turns: and the window to divide next is below the divisor. */
  ghost predicate Underway(Z: nat, z: seq<Digit>, k: nat, ny: nat, Y: nat) {
    ny <= k <= |z| && Divided(Z, z, k, ny, Y) && Val(z[k - ny..k]) < Y
  }

  lemma DividedInit(z: seq<Digit>, ny: nat, Y: nat)
    requires ny <= |z|
    ensures Divided(Val(z), z, |z|, ny, Y)
  {
    assert z[|z|..] == [] && z[..|z|] == z;
  }

  lemma UnderwayInit(z: seq<Digit>, ny: nat, Y: nat)
    requires ny <= |z| && Val(z[|z| - ny..]) < Y
    ensures Underway(Val(z), z, |z|, ny, Y)
  {
    hide Val, Divided;
    DividedInit(z, ny, Y);
    assert z[|z| - ny..|z|] == z[|z| - ny..];
  }

  lemma UnderwayDone(Z: nat, z: seq<Digit>, ny: nat, Y: nat)
    requires Underway(Z, z, ny, ny, Y)
    ensures Z == Val(z[ny..]) * Y + Val(z[..ny]) && Val(z[..ny]) < Y
  {
    assert Power(0) == 1 && z[0..ny] == z[..ny];
  }

  /** One turn keeps what has been divided. */
  method Turn(zds: array<Digit>, yds: array<Digit>, j: nat, ny: nat, nyzero: nat, ghost Z: nat)
    requires zds != yds && 1 <= ny <= yds.Length && nyzero < ny <= j < zds.Length
    requires forall k :: 0 <= k < nyzero ==> yds[k] == 0
    requires 2 * yds[ny - 1] >= BIGRAD
    requires Underway(Z, zds[..], j + 1, ny, Val(yds[..ny]))
    modifies zds
    ensures Underway(Z, zds[..], j, ny, Val(yds[..ny]))
  {
    hide Val, Divided, Power;
    ghost var z := zds[..];
    assert z[j - ny + 1..j + 1] == zds[j - ny + 1..j + 1];
    ghost var _ := DivideDigit(zds, yds, j, ny, nyzero);
    ghost var z' := zds[..];
    assert z[j - ny..j + 1] == old(zds[j - ny..j + 1]);
    assert z'[..j - ny] == z[..j - ny] && z'[j + 1..] == z[j + 1..] && z'[j - ny..j] == zds[j - ny..j];
    DividedStep(Z, z, z', j, ny, Val(yds[..ny]));
  }

  /** bigdivrem1: divides the buffer in place, remainder in digits ..ny, quotient in digits ny... */
  method DivRem1(zds: array<Digit>, yds: array<Digit>, nx: nat, ny: nat)
    requires zds != yds && 1 <= ny <= yds.Length && ny <= nx
    requires zds.Length == if nx == ny then nx + 2 else nx + 1
    requires 2 * yds[ny - 1] >= BIGRAD
    requires Val(zds[zds.Length - ny..]) < Val(yds[..ny])
    modifies zds
    ensures old(Val(zds[..])) == Val(zds[ny..]) * Val(yds[..ny]) + Val(zds[..ny])
    ensures Val(zds[..ny]) < Val(yds[..ny])
  {
    hide Val, Underway, Power;
    ghost var Z, Y := Val(zds[..]), Val(yds[..ny]);
    var j := if nx == ny then nx + 1 else nx;
    var nyzero := 0;
    while yds[nyzero] == 0
      invariant 0 <= nyzero < ny
      invariant forall k :: 0 <= k < nyzero ==> yds[k] == 0
      decreases ny - nyzero
    {
      nyzero := nyzero + 1;
    }
    ghost var start := zds[..];
    assert start[|start| - ny..] == zds[zds.Length - ny..];
    UnderwayInit(start, ny, Y);
    while j >= ny
      invariant ny - 1 <= j < zds.Length
      invariant Underway(Z, zds[..], j + 1, ny, Y)
    {
      Turn(zds, yds, j, ny, nyzero, Z);
      j := j - 1;
    }
    ghost var z := zds[..];
    assert z[ny..] == zds[ny..] && z[..ny] == zds[..ny];
    UnderwayDone(Z, z, ny, Y);
  }
}
