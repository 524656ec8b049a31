/** rb_ary_combination: an odometer over index vectors against the list of all combinations. */
module Combination {
  import Arith
  import opened Options

  // ----- the combinations -----

  function Prepend(x: int, cs: seq<seq<int>>): (r: seq<seq<int>>)
    ensures |r| == |cs| && forall i :: 0 <= i < |cs| ==> r[i] == [x] + cs[i]
    decreases |cs|
  {
    if cs == [] then [] else [[x] + cs[0]] + Prepend(x, cs[1..])
  }

  lemma {:induction false} PrependConcat(x: int, a: seq<seq<int>>, b: seq<seq<int>>)
    ensures Prepend(x, a + b) == Prepend(x, a) + Prepend(x, b)
  {
  }

  /** All k-element index vectors from start up to len, those that begin with the least index first. */
  function All(start: int, len: nat, k: nat): seq<seq<int>>
    decreases len - start, k
  {
    if k == 0 then [[]]
    else if start >= len then []
    else Prepend(start, All(start + 1, len, k - 1)) + All(start + 1, len, k)
  }

  /** A choice of k indices: increasing, from start up to len. */
  predicate Choice(c: seq<int>, start: int, len: nat, k: nat) {
    && |c| == k
    && (forall i :: 0 <= i < k ==> start <= c[i] < len)
    && (forall i, j :: 0 <= i < j < k ==> c[i] < c[j])
  }

  lemma AllShape(start: int, len: nat, k: nat)
    ensures k == 0 ==> All(start, len, k) == [[]]
    ensures k > 0 && start >= len ==> All(start, len, k) == []
    ensures k > 0 && start < len ==>
              All(start, len, k) == Prepend(start, All(start + 1, len, k - 1)) + All(start + 1, len, k)
  {
  }

  /** The list holds exactly the choices. */
  lemma {:induction false} AllAreChoices(start: int, len: nat, k: nat, c: seq<int>)
    ensures c in All(start, len, k) <==> Choice(c, start, len, k)
    decreases len - start, k
  {
    hide All;
    AllShape(start, len, k);
    if k > 0 && start >= len {
      assert |c| == k ==> !(start <= c[0] < len);
    } else if k > 0 {
      hide Choice;
      AllAreChoices(start + 1, len, k, c);
      if c != [] { AllAreChoices(start + 1, len, k - 1, c[1..]); }
      AllStep(start, len, k, c);
    }
  }

  /** A vector in the list starts with start or is in the list from start + 1 on. */
  lemma AllStep(start: int, len: nat, k: nat, c: seq<int>)
    requires k > 0 && start < len
    requires c in All(start + 1, len, k) <==> Choice(c, start + 1, len, k)
    requires c != [] ==> (c[1..] in All(start + 1, len, k - 1) <==> Choice(c[1..], start + 1, len, k - 1))
    ensures c in All(start, len, k) <==> Choice(c, start, len, k)
  {
    var tails, others := All(start + 1, len, k - 1), All(start + 1, len, k);
    assert All(start, len, k) == Prepend(start, tails) + others;
    assert c == [] ==> !Choice(c, start, len, k) && !Choice(c, start + 1, len, k);
    hide All, Choice;
    assert c in Prepend(start, tails) + others <==> c in Prepend(start, tails) || c in others;
    if c == [] {
      assert forall i :: 0 <= i < |tails| ==> Prepend(start, tails)[i] != [];
    } else {
      HeadIn(start, tails, c);
      ChoiceSplit(c, start, len, k);
    }
  }

  lemma HeadIn(x: int, cs: seq<seq<int>>, c: seq<int>)
    requires c != []
    ensures c in Prepend(x, cs) <==> c[0] == x && c[1..] in cs
  {
    var with := Prepend(x, cs);
    if c in with {
      var i :| 0 <= i < |with| && with[i] == c;
      assert c[1..] == cs[i];
    }
    if c[0] == x && c[1..] in cs {
      var i :| 0 <= i < |cs| && cs[i] == c[1..];
      assert with[i] == c;
    }
  }

  lemma ChoiceSplit(c: seq<int>, start: int, len: nat, k: nat)
    requires c != [] && k > 0 && start < len
    ensures Choice(c, start, len, k) <==>
            Choice(c, start + 1, len, k) || (c[0] == start && Choice(c[1..], start + 1, len, k - 1))
  {
    if c[0] == start && Choice(c[1..], start + 1, len, k - 1) {
      assert forall i :: 0 < i < k ==> c[i] == c[1..][i - 1];
    }
  }

  /** The first index at which two vectors differ decides. */
  predicate Less(a: seq<int>, b: seq<int>)
    decreases |a|
  {
    b != [] && (a == [] || a[0] < b[0] || (a[0] == b[0] && Less(a[1..], b[1..])))
  }

  lemma StartsAbove(c: seq<int>, start: int, len: nat, k: nat)
    requires Choice(c, start, len, k) && k > 0
    ensures c != [] && c[0] >= start
  {
  }

  /** In lexicographic order, so each once. */
  lemma {:induction false} AllInOrder(start: int, len: nat, k: nat, i: nat, j: nat)
    requires i < j < |All(start, len, k)|
    ensures Less(All(start, len, k)[i], All(start, len, k)[j])
    decreases len - start, k
  {
    hide All, Choice;
    AllShape(start, len, k);
    var tails, others := All(start + 1, len, k - 1), All(start + 1, len, k);
    var with := Prepend(start, tails);
    if j < |with| {
      AllInOrder(start + 1, len, k - 1, i, j);
      assert with[i][1..] == tails[i] && with[j][1..] == tails[j];
    } else if i < |with| {
      var c := others[j - |with|];
      AllAreChoices(start + 1, len, k, c);
      StartsAbove(c, start + 1, len, k);
    } else {
      AllInOrder(start + 1, len, k, i - |with|, j - |with|);
    }
  }

  // ----- how many -----

  function Binomial(n: nat, k: nat): nat
    decreases n
  {
    if k == 0 then 1 else if n == 0 then 0 else Binomial(n - 1, k - 1) + Binomial(n - 1, k)
  }

  lemma {:induction false} AllCount(start: int, len: nat, k: nat)
    requires start <= len
    ensures |All(start, len, k)| == Binomial(len - start, k)
    decreases len - start, k
  {
    if k > 0 && start < len {
      AllCount(start + 1, len, k - 1);
      AllCount(start + 1, len, k);
    }
  }

  lemma {:induction false} TooMany(n: nat, k: nat)
    requires k > n
    ensures Binomial(n, k) == 0
    decreases n
  {
    if n > 0 {
      TooMany(n - 1, k - 1);
      TooMany(n - 1, k);
    }
  }

  lemma {:induction false} Whole(n: nat)
    ensures Binomial(n, n) == 1
    decreases n
  {
    if n > 0 {
      Whole(n - 1);
      TooMany(n - 1, n);
    }
  }

  lemma {:induction false} Symmetric(n: nat, k: nat)
    requires k <= n
    ensures Binomial(n, k) == Binomial(n, n - k)
    decreases n
  {
    if k == 0 || k == n {
      Whole(n);
    } else {
      Symmetric(n - 1, k - 1);
      Symmetric(n - 1, k);
    }
  }

  /** Each product in the loop divides without remainder. */
  lemma {:induction false} NextFactor(n: nat, k: nat)
    requires 0 < k <= n
    ensures Binomial(n, k) * k == Binomial(n, k - 1) * (n - k + 1)
    decreases n
  {
    if k == n {
      Whole(n);
      Symmetric(n, 1);
      One(n);
    } else {
      NextFactor(n - 1, k);
      if k > 1 { NextFactor(n - 1, k - 1); }
      Combine(Binomial(n - 1, k), Binomial(n - 1, k - 1), if k > 1 then Binomial(n - 1, k - 2) else 0, n, k);
    }
  }

  lemma {:induction false} One(n: nat)
    ensures Binomial(n, 1) == n
    decreases n
  {
    if n > 0 { One(n - 1); }
  }

  lemma Combine(a: int, b: int, c: int, n: int, k: int)
    requires a * k == b * (n - k) && b * (k - 1) == c * (n - k + 1)
    ensures (b + a) * k == (c + b) * (n - k + 1)
  {
    calc {
      (b + a) * k;
      b * k + a * k;
      b * k + b * (n - k);
      b * n;
      b * (k - 1) + b * (n - k + 1);
      (c + b) * (n - k + 1);
    }
  }

  // ----- counting in C longs -----

  const LONG_MAX: int := 0x7FFF_FFFF
  const ARY_MAX_SIZE: nat := 0x1FFF_FFFF

  /** A product that does not fit a long wraps around. */
  function Wrap(x: int): int {
    (x + 0x8000_0000) % 0x1_0000_0000 - 0x8000_0000
  }

  /** The loop of combi_len from turn i on: a product below its first factor is taken for too big. */
  function CountFrom(n: nat, k: nat, i: nat, val: nat): (r: Option<nat>)
    requires 1 <= i && k <= n
    decreases k + 1 - i
  {
    if i > k then Some(val)
    else
      var product := Wrap(val * (n - i + 1));
      if product < val then None else CountFrom(n, k, i + 1, product / i)
  }

  /** The smaller of two counts that select equally many. */
  function Lesser(n: nat, k: int): int {
    if k * 2 > n then n - k else k
  }

  function Count(n: nat, k0: int): Option<nat> {
    var k := Lesser(n, k0);
    if k == 0 then Some(1) else if k < 0 then Some(0) else CountFrom(n, k, 1, 1)
  }

  /** The product of the last turn. */
  function LargestProduct(n: nat, k: nat): nat {
    k * Binomial(n, k)
  }

  /** The largest product of the loop fits a long. */
  predicate Small(n: nat, k0: int) {
    var k := Lesser(n, k0);
    k > 0 ==> LargestProduct(n, k) <= LONG_MAX
  }

  /** combi_len */
  method CombiLen(n: nat, k0: int) returns (ok: bool, val: nat)
    requires n <= ARY_MAX_SIZE && k0 <= ARY_MAX_SIZE
    ensures (if ok then Some(val) else None) == Count(n, k0)
  {
    hide CountFrom, Wrap;
    var k := k0;
    if k * 2 > n { k := n - k; }
    if k == 0 { return true, 1; }
    if k < 0 { return true, 0; }
    val := 1;
    var m := n;
    for i := 1 to k + 1
      invariant m == n - i + 1 && CountFrom(n, k, i, val) == Count(n, k0)
    {
      CountUnfold(n, k, i, val);
      var product := Wrap(val * m);
      if product < val { return false, 0; }
      val := product / i;
      m := m - 1;
    }
    CountUnfold(n, k, k + 1, val);
    ok := true;
  }

  lemma Divided(p: nat, q: nat, i: nat)
    requires i > 0 && p == q * i
    ensures p / i == q
  {
    Arith.DivUnique(p, i, q, 0);
  }

  /** The products grow from turn to turn. */
  lemma {:induction false} ProductsGrow(n: nat, k: nat, i: nat)
    requires 1 <= i <= k && k * 2 <= n
    ensures Binomial(n, i - 1) * (n - i + 1) <= LargestProduct(n, k)
    ensures i == k ==> Binomial(n, i - 1) * (n - i + 1) == LargestProduct(n, k)
    decreases k - i
  {
    hide Binomial;
    NextFactor(n, i);
    if i < k {
      ProductsGrow(n, k, i + 1);
      Arith.MulLe(i, n - i, Binomial(n, i));
    }
  }

  /** What is below the coefficient stays below, what is the coefficient stays it while products fit. */
  lemma {:induction false} CountBelow(n: nat, k: nat, i: nat, val: nat)
    requires 1 <= i <= k + 1 && k * 2 <= n && val <= Binomial(n, i - 1)
    ensures var r := CountFrom(n, k, i, val);
            && (r.Some? ==> r.value <= Binomial(n, k))
            && (r == Some(Binomial(n, k)) <==>
                val == Binomial(n, i - 1) && (i <= k ==> LargestProduct(n, k) <= LONG_MAX))
    decreases k + 1 - i
  {
    hide Binomial, CountFrom, Wrap, LargestProduct;
    CountUnfold(n, k, i, val);
    if i <= k {
      CountTurn(n, k, i, val);
      var product := Wrap(val * (n - i + 1));
      if product >= val { CountBelow(n, k, i + 1, product / i); }
    }
  }

  /** One turn: the product fits if all do, and the last one is the largest. */
  lemma CountTurn(n: nat, k: nat, i: nat, val: nat)
    requires 1 <= i <= k && k * 2 <= n && val <= Binomial(n, i - 1)
    ensures var product, fits := Wrap(val * (n - i + 1)), LargestProduct(n, k) <= LONG_MAX;
            if product < val then !(val == Binomial(n, i - 1) && fits)
            else
              && 0 <= product / i <= Binomial(n, i)
              && (product / i == Binomial(n, i) ==> val == Binomial(n, i - 1) && (i == k ==> fits))
              && (val == Binomial(n, i - 1) && fits ==> product / i == Binomial(n, i))
  {
    hide Binomial, Wrap;
    var c, b, m := Binomial(n, i - 1), Binomial(n, i), n - i + 1;
    NextFactor(n, i);
    ProductsGrow(n, k, i);
    TurnCore(val, c, m, b, i);
  }

  /** The arithmetic of a turn, for coefficients c and b with b * i == c * m. */
  lemma TurnCore(val: nat, c: nat, m: nat, b: nat, i: nat)
    requires val <= c && m >= 1 && i >= 1 && b * i == c * m
    ensures var product := Wrap(val * m);
            if product < val then val == c ==> c * m > LONG_MAX
            else
              && 0 <= product / i <= b
              && (product / i == b <==> val == c && c * m <= LONG_MAX)
  {
    hide Wrap;
    var product := Wrap(val * m);
    Wrapped(val * m);
    Arith.MulLe(1, m, val);
    if val == c && c * m <= LONG_MAX {
      Divided(product, b, i);
    } else {
      Lower(val, c, m);
      if product >= val { Arith.DivLess(product, i, b); }
    }
  }

  /** A smaller value or an overflow makes the product smaller. */
  lemma Lower(val: nat, c: nat, m: nat)
    requires val <= c && m >= 1 && !(val == c && c * m <= LONG_MAX)
    ensures Wrap(val * m) < c * m
  {
    hide Wrap;
    Wrapped(val * m);
    if val < c {
      Arith.MulLe(val + 1, c, m);
      Arith.MulAdd(m, val, 1);
    }
  }

  lemma CountUnfold(n: nat, k: nat, i: nat, val: nat)
    requires 1 <= i && k <= n
    ensures CountFrom(n, k, i, val) ==
            if i > k then Some(val)
            else
              var product := Wrap(val * (n - i + 1));
              if product < val then None else CountFrom(n, k, i + 1, product / i)
  {
    hide Wrap;
  }

  lemma Wrapped(x: nat)
    ensures Wrap(x) <= x && (x <= LONG_MAX ==> Wrap(x) == x) && (x > LONG_MAX ==> Wrap(x) <= x - 0x1_0000_0000)
  {
  }
  /** The count is at most the binomial coefficient, and is that, without an error, exactly when the largest
      product fits a long. */
  lemma CountExactly(n: nat, k0: int)
    ensures Count(n, k0).Some? ==> Count(n, k0).value <= if k0 < 0 then 0 else Binomial(n, k0)
    ensures Count(n, k0) == Some(if k0 < 0 then 0 else Binomial(n, k0)) <==> Small(n, k0)
  {
    hide CountFrom;
    var k := Lesser(n, k0);
    if 0 <= k0 <= n { Symmetric(n, k0); }
    if k0 > n { TooMany(n, k0); }
    if k > 0 { CountBelow(n, k, 1, 1); }
  }

  /** Of 35 things 11 can be chosen in 417225900 ways; the loop says 26774327 and reports no error. */
  lemma CountWraps()
    ensures Count(35, 11) == Some(26774327) && Binomial(35, 11) == 417225900
  {
    hide Binomial, CountFrom;
    ChooseEleven();
    CountUnfold(35, 11, 1, 1);
    CountUnfold(35, 11, 2, 35);
    CountUnfold(35, 11, 3, 595);
    CountUnfold(35, 11, 4, 6545);
    CountUnfold(35, 11, 5, 52360);
    CountUnfold(35, 11, 6, 324632);
    CountUnfold(35, 11, 7, 1623160);
    CountUnfold(35, 11, 8, 6724520);
    CountUnfold(35, 11, 9, 23535820);
    CountUnfold(35, 11, 10, 70607460);
    CountUnfold(35, 11, 11, 183579396);
    CountUnfold(35, 11, 12, 26774327);
  }

  lemma ChooseEleven()
    ensures Binomial(35, 11) == 417225900
  {
    hide Binomial;
    ChooseNone(35);
    NextFactor(35, 1);
    NextFactor(35, 2);
    NextFactor(35, 3);
    NextFactor(35, 4);
    NextFactor(35, 5);
    NextFactor(35, 6);
    NextFactor(35, 7);
    NextFactor(35, 8);
    NextFactor(35, 9);
    NextFactor(35, 10);
    NextFactor(35, 11);
  }

  lemma ChooseNone(n: nat)
    ensures Binomial(n, 0) == 1
  {
  }

  // ----- the odometer -----

  /** The choices from c on. */
  function From(c: seq<int>, len: nat): seq<seq<int>>
    decreases |c|
  {
    if c == [] then [[]] else Prepend(c[0], From(c[1..], len)) + All(c[0] + 1, len, |c|)
  }

  /** k indices in a row. */
  function Filled(x: int, k: nat): (r: seq<int>)
    ensures |r| == k && forall j :: 0 <= j < k ==> r[j] == x + j
    decreases k
  {
    if k == 0 then [] else [x] + Filled(x + 1, k - 1)
  }

  lemma {:induction false} AllNone(start: int, len: nat, k: nat)
    requires start + k > len
    ensures k > 0 ==> All(start, len, k) == []
    decreases len - start, k
  {
    if k > 0 && start < len {
      AllNone(start + 1, len, k);
      AllNone(start + 1, len, k - 1);
      if k == 1 { assert false; }
    }
  }

  lemma {:induction false} FromFilled(x: int, len: nat, k: nat)
    requires x + k <= len
    ensures From(Filled(x, k), len) == All(x, len, k)
    decreases k
  {
    if k > 0 {
      FromFilled(x + 1, len, k - 1);
      assert Filled(x, k)[1..] == Filled(x + 1, k - 1);
    }
  }

  lemma PrependOne(x: int, c: seq<int>)
    ensures Prepend(x, [c]) == [[x] + c]
  {
  }

  /** Every index is as large as it can be. */
  predicate Full(c: seq<int>, len: nat) {
    forall i :: 0 <= i < |c| ==> c[i] == len - |c| + i
  }

  lemma {:induction false} FromFull(c: seq<int>, len: nat)
    requires Full(c, len)
    ensures From(c, len) == [c]
    decreases |c|
  {
    hide All;
    if c != [] {
      assert Full(c[1..], len) by {
        assert forall i :: 0 <= i < |c| - 1 ==> c[1..][i] == c[i + 1];
      }
      FromFull(c[1..], len);
      AllNone(c[0] + 1, len, |c|);
      PrependOne(c[0], c[1..]);
      assert c == [c[0]] + c[1..];
    }
  }

  lemma FromShape(c: seq<int>, len: nat)
    ensures From(c, len) == if c == [] then [[]] else Prepend(c[0], From(c[1..], len)) + All(c[0] + 1, len, |c|)
  {
  }

  /** The vector with c[p] one larger and the rest in a row behind it. */
  function Advanced(c: seq<int>, p: nat): seq<int>
    requires p < |c|
  {
    c[..p] + Filled(c[p] + 1, |c| - p)
  }

  lemma AdvancedTail(c: seq<int>, p: nat)
    requires 0 < p < |c|
    ensures Advanced(c, p) == [c[0]] + Advanced(c[1..], p - 1)
  {
    hide Filled;
    assert c[..p] == [c[0]] + c[1..][..p - 1];
  }

  /** After c comes the vector advanced at p, if p is the last index that can grow. */
  lemma {:induction false} FromStep(c: seq<int>, len: nat, p: nat)
    requires p < |c| && c[p] + (|c| - p) < len && Full(c[p + 1..], len)
    ensures From(c, len) == [c] + From(Advanced(c, p), len)
    decreases p
  {
    hide All, Full, From, Filled, Prepend;
    FromShape(c, len);
    assert c == [c[0]] + c[1..];
    if p == 0 {
      FromFull(c[1..], len);
      PrependOne(c[0], c[1..]);
      FromFilled(c[0] + 1, len, |c|);
      assert Advanced(c, 0) == Filled(c[0] + 1, |c|);
    } else {
      var d := c[1..];
      assert d[p..] == c[p + 1..];
      FromStep(d, len, p - 1);
      var tail := Advanced(d, p - 1);
      AdvancedTail(c, p);
      FromHead(c[0], tail, len);
      PrependConcat(c[0], [d], From(tail, len));
      PrependOne(c[0], d);
      Regroup([c], Prepend(c[0], From(tail, len)), All(c[0] + 1, len, |c|));
    }
  }

  lemma FromHead(x: int, tail: seq<int>, len: nat)
    ensures From([x] + tail, len) == Prepend(x, From(tail, len)) + All(x + 1, len, |tail| + 1)
  {
    hide All;
    assert ([x] + tail)[1..] == tail;
  }

  lemma Regroup<T>(a: seq<T>, b: seq<T>, c: seq<T>)
    ensures (a + b) + c == a + (b + c)
  {
  }

  /** The elements at the indices. */
  function Select<T>(ary: seq<T>, c: seq<int>): (r: seq<T>)
    requires forall j :: 0 <= j < |c| ==> 0 <= c[j] < |ary|
    ensures |r| == |c| && forall j :: 0 <= j < |c| ==> r[j] == ary[c[j]]
    decreases |c|
  {
    if c == [] then [] else [ary[c[0]]] + Select(ary, c[1..])
  }

  /** The chosen elements of each vector. */
  ghost predicate Yields<T>(ary: seq<T>, cs: seq<seq<int>>, out: seq<seq<T>>) {
    && |out| == |cs|
    && forall i :: 0 <= i < |cs| ==>
         (forall j :: 0 <= j < |cs[i]| ==> 0 <= cs[i][j] < |ary|) && out[i] == Select(ary, cs[i])
  }

  /** What is to be yielded next stands in stack[1..lev + 2], to be continued in a row. */
  ghost predicate Pending(stack: seq<int>, lev: nat, n: nat, len: nat) {
    && |stack| == n + 1 && lev < n
    && forall j :: 1 <= j <= lev + 1 ==> 0 <= stack[j] && stack[j] + n < len + j
  }

  function NextUp(stack: seq<int>, lev: nat, n: nat): seq<int>
    requires lev < n < |stack|
  {
    stack[1..lev + 1] + Filled(stack[lev + 1], n - lev)
  }

  lemma FullNone(c: seq<int>, len: nat)
    ensures Full(c[|c|..], len)
  {
  }

  lemma FullMore(c: seq<int>, len: nat, p: nat)
    requires p < |c| && c[p] == len - |c| + p && Full(c[p + 1..], len)
    ensures Full(c[p..], len)
  {
    var d, rest := c[p..], c[p + 1..];
    forall i | 0 <= i < |d| ensures d[i] == len - |d| + i {
      if i > 0 { assert d[i] == rest[i - 1] == len - |rest| + (i - 1); }
    }
  }

  /** Turns the odometer to the next vector: from the end, indices that overflow are given up. */
  method Turn(stack: array<int>, n: nat, len: nat) returns (lev: nat)
    requires 0 < n <= len && stack.Length == n + 1
    requires forall j :: 1 <= j <= n ==> 0 <= stack[j] && stack[j] + n < len + j
    modifies stack
    ensures lev < n && stack[0] == old(stack[0]) && (forall j :: 1 <= j <= lev ==> stack[j] == old(stack[j]))
    ensures Full(old(stack[1..]), len) || (
              && Pending(stack[..], lev, n, len)
              && From(old(stack[1..]), len) == [old(stack[1..])] + From(NextUp(stack[..], lev, n), len))
    ensures Full(old(stack[1..]), len) ==> lev == 0
  {
    hide From, Filled, Full;
    ghost var c := stack[1..];
    assert forall i :: 0 <= i < n ==> c[i] == stack[i + 1];
    FullNone(c, len);
    lev := n;
    var again := true;
    while again
      invariant lev <= n && (again ==> lev > 0) && (!again ==> lev < n)
      invariant stack[0] == old(stack[0])
      invariant forall j :: 1 <= j <= lev ==> stack[j] == c[j - 1]
      invariant lev < n ==> stack[lev + 1] == c[lev] + 1
      invariant Full(c[if again then lev else lev + 1..], len)
      invariant !again ==> lev == 0 || c[lev] + (n - lev) < len
      decreases lev, again
    {
      stack[lev] := stack[lev] + 1;
      lev := lev - 1;
      again := lev > 0 && stack[lev + 1] + n == len + lev + 1;
      if again { FullMore(c, len, lev); }
    }
    assert stack[1..lev + 1] == c[..lev];
    Turned(c, len, lev);
  }

  /** Where the odometer has stopped: the next vector, or the last one was full. */
  lemma Turned(c: seq<int>, len: nat, p: nat)
    requires p < |c| && Full(c[p + 1..], len) && (p == 0 || c[p] + (|c| - p) < len)
    requires forall i :: 0 <= i < |c| ==> c[i] + |c| <= len + i
    ensures Full(c, len) ==> p == 0
    ensures !Full(c, len) ==>
            c[p] + (|c| - p) < len && From(c, len) == [c] + From(c[..p] + Filled(c[p] + 1, |c| - p), len)
  {
    if c[p] + (|c| - p) < len {
      FromStep(c, len, p);
      NotFull(c, len, p);
    } else {
      assert forall i :: 0 < i < |c| ==> c[i] == c[1..][i - 1];
    }
  }

  lemma NotFull(c: seq<int>, len: nat, p: nat)
    requires p < |c| && c[p] + (|c| - p) < len
    ensures !Full(c, len)
  {
    assert c[p] != len - |c| + p;
  }

  /** From the pending position on: the rest of the vector in a row, the elements along with it. */
  method Fill<T>(ary: seq<T>, stack: array<int>, chosen: array<T>, lev0: nat, n: nat)
    requires 0 < n <= |ary| && stack.Length == n + 1 && chosen.Length == n && Pending(stack[..], lev0, n, |ary|)
    requires forall j :: 0 <= j < lev0 ==> chosen[j] == ary[stack[1..][j]]
    modifies stack, chosen
    ensures stack[1..] == old(NextUp(stack[..], lev0, n))
    ensures forall j :: 1 <= j <= n ==> 0 <= stack[j] && stack[j] + n < |ary| + j
    ensures chosen[..] == Select(ary, stack[1..])
  {
    var lev := lev0;
    chosen[lev] := ary[stack[lev + 1]];
    lev := lev + 1;
    while lev < n
      invariant lev0 < lev <= n
      invariant forall j :: 1 <= j <= lev0 + 1 ==> stack[j] == old(stack[j])
      invariant forall j :: lev0 + 1 <= j <= lev ==> stack[j] == old(stack[lev0 + 1]) + (j - lev0 - 1)
      invariant forall j :: 0 <= j < lev ==> chosen[j] == ary[stack[1..][j]]
    {
      stack[lev + 1] := stack[lev] + 1;
      chosen[lev] := ary[stack[lev + 1]];
      lev := lev + 1;
    }
    assert stack[1..] == old(NextUp(stack[..], lev0, n));
  }

  lemma YieldsMore<T>(ary: seq<T>, cs: seq<seq<int>>, out: seq<seq<T>>, c: seq<int>, chosen: seq<T>)
    requires Yields(ary, cs, out) && (forall j :: 0 <= j < |c| ==> 0 <= c[j] < |ary|) && chosen == Select(ary, c)
    ensures Yields(ary, cs + [c], out + [chosen])
  {
    hide Select;
  }

  /** The general case, two or more at a time: as many rows as were counted. */
  method Odometer<T(0)>(ary: seq<T>, n: nat, nlen: nat) returns (out: seq<seq<T>>)
    requires 2 <= n <= |ary| && nlen <= Binomial(|ary|, n)
    ensures nlen <= |All(0, |ary|, n)| && Yields(ary, All(0, |ary|, n)[..nlen], out)
  {
    hide All, From, Full, Select, Filled, Yields;
    ghost var len, all, done := |ary|, All(0, |ary|, n), [];
    var stack, chosen := new int[n + 1](_ => 0), new T[n];
    AllCount(0, len, n);
    var lev := 0;
    stack[0] := -1;
    out := [];
    assert Yields(ary, done, out) by { YieldsNone(ary); }
    FromFilled(0, len, n);
    assert NextUp(stack[..], 0, n) == Filled(0, n);
    for i := 0 to nlen
      invariant |done| == i && Yields(ary, done, out) && done <= all
      invariant i < nlen ==>
                  && Pending(stack[..], lev, n, len) && done + From(NextUp(stack[..], lev, n), len) == all
                  && forall j :: 0 <= j < lev ==> chosen[j] == ary[stack[1..][j]]
    {
      Fill(ary, stack, chosen, lev, n);
      ghost var d := stack[1..];
      YieldsMore(ary, done, out, d, chosen[..]);
      out := out + [chosen[..]];
      lev := Turn(stack, n, |ary|);
      if Full(d, len) {
        FromFull(d, len);
      } else {
        Regroup(done, [d], From(NextUp(stack[..], lev, n), len));
        SelectPrefix(ary, d, stack[1..], chosen[..], lev);
      }
      done := done + [d];
    }
    assert done == all[..nlen];
  }

  lemma YieldsNone<T>(ary: seq<T>)
    ensures Yields(ary, [], [])
  {
  }

  lemma SelectPrefix<T>(ary: seq<T>, c: seq<int>, d: seq<int>, chosen: seq<T>, lev: nat)
    requires (forall j :: 0 <= j < |c| ==> 0 <= c[j] < |ary|) && chosen == Select(ary, c)
    requires lev <= |c| == |d| && forall j :: 0 <= j < lev ==> d[j] == c[j]
    ensures forall j :: 0 <= j < lev ==> 0 <= d[j] < |ary| && chosen[j] == ary[d[j]]
  {
  }

  /** How many rows rb_ary_combination yields, unless it raises a range error: the count matters for two
      or more at a time only. */
  function Rows(len: nat, n: int): Option<nat> {
    if n < 0 || len < n then Some(0) else if n == 0 then Some(1) else if n == 1 then Some(len) else Count(len, n)
  }

  /** rb_ary_combination yields the n-element selections in lexicographic order of their indices, as many as
      it counts. */
  method Combination<T(0)>(ary: seq<T>, n: int) returns (ok: bool, out: seq<seq<T>>)
    requires |ary| <= ARY_MAX_SIZE
    ensures ok <==> Rows(|ary|, n).Some?
    ensures ok ==> var all, rows := if n < 0 then [] else All(0, |ary|, n), Rows(|ary|, n).value;
                   rows <= |all| && Yields(ary, all[..rows], out)
  {
    hide All, Count;
    ok, out := true, [];
    if n < 0 || |ary| < n {
      if n >= 0 { AllNone(0, |ary|, n); }
    } else if n == 0 {
      AllZero(|ary|);
      out := [[]];
    } else if n == 1 {
      ghost var all := All(0, |ary|, 1);
      Singles(0, |ary|);
      for i := 0 to |ary|
        invariant Yields(ary, all[..i], out)
      {
        assert all[..i + 1] == all[..i] + [[i]];
        YieldsMore(ary, all[..i], out, [i], [ary[i]]);
        out := out + [[ary[i]]];
      }
    } else {
      var nlen;
      ok, nlen := CombiLen(|ary|, n);
      CountExactly(|ary|, n);
      if ok { out := Odometer(ary, n, nlen); }
    }
  }

  /** It yields all of them, without an error, exactly when the largest product of the count fits a long or
      there is nothing to count. */
  lemma AllYielded(len: nat, n: int)
    ensures Rows(len, n) == Some(if n < 0 then 0 else |All(0, len, n)|) <==> Small(len, n) || n <= 1
  {
    hide All, Count, Small;
    if n >= 0 { AllCount(0, len, n); }
    CountExactly(len, n);
    if n > len { TooMany(len, n); NotSmall(len, n); }
    if n == 0 { ChooseNone(len); }
    if n == 1 { One(len); }
  }

  lemma NotSmall(len: nat, n: int)
    requires n > len
    ensures Small(len, n)
  {
  }

  lemma AllZero(len: nat)
    ensures All(0, len, 0) == [[]]
  {
  }

  lemma SinglesStep(start: int, len: nat)
    requires start < len
    ensures All(start, len, 1) == [[start]] + All(start + 1, len, 1)
  {
    PrependOne(start, []);
    assert [start] + [] == [start];
    assert All(start + 1, len, 0) == [[]];
  }

  lemma {:induction false} Singles(start: int, len: nat)
    requires start <= len
    ensures var all := All(start, len, 1);
            |all| == len - start && forall i :: 0 <= i < len - start ==> all[i] == [start + i]
    decreases len - start
  {
    if start < len {
      hide All;
      SinglesStep(start, len);
      Singles(start + 1, len);
    } else {
      SinglesNone(len);
    }
  }

  lemma SinglesNone(len: nat)
    ensures All(len, len, 1) == []
  {
  }
}
