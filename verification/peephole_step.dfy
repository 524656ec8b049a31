/** One call of iseq_peephole_optimize on an instruction of a list: where its retry ends, what it leaves
    behind, and when that keeps results. */
module PeepholeStep {
  import opened Nodes
  import opened Options
  import opened Lowering
  import opened Machine
  import opened Emission
  import opened Peephole

  predicate IsJump(c: Code, q: nat) {
    q < |c| && c[q].I? && c[q].insn.Jump?
  }

  predicate IsBranch(c: Code, q: nat) {
    q < |c| && c[q].I? && (c[q].insn.BranchIf? || c[q].insn.BranchUnless?)
  }

  /** Every label jumped to is placed with an instruction behind it. */
  ghost predicate Targeted(c: Code) {
    forall q :: 0 <= q < |c| && c[q].I? && Target(c[q].insn).Some? ==> Dest(c, Target(c[q].insn).value) < |c|
  }

  // ----- the retry -----

  /** The jump at i, once it leads to l: the label of the jump behind l it is led on to, or None where
      the retry ends. */
  function LeadsOn(c: Code, i: nat, l: nat): Option<nat>
    requires i < |c|
  {
    var d := Dest(c, l);
    if d == Next(c, i + 1) || d == i || !IsJump(c, d) || c[d].insn.l == l then None else Some(c[d].insn.l)
  }

  /** The label after k retries, or None if there are fewer. */
  function Chase(c: Code, i: nat, l: nat, k: nat): Option<nat>
    requires i < |c|
    decreases k
  {
    if k == 0 then Some(l)
    else match LeadsOn(c, i, l)
      case None => None
      case Some(l2) => Chase(c, i, l2, k - 1)
  }

  /** From label l on the jump at i is retried finitely often. */
  ghost predicate Finite(c: Code, i: nat, l: nat)
    requires i < |c|
  {
    exists k: nat :: Chase(c, i, l, k).None?
  }

  /** The retry of the jump at i ends. */
  ghost predicate RetryEnds(c: Code, i: nat) {
    IsJump(c, i) ==> Finite(c, i, c[i].insn.l)
  }

  /** The label where at most k retries lead. */
  function Settle(c: Code, i: nat, l: nat, k: nat): nat
    requires i < |c|
    decreases k
  {
    if k == 0 || LeadsOn(c, i, l).None? then l else Settle(c, i, LeadsOn(c, i, l).value, k - 1)
  }

  lemma {:induction false} ChaseAdd(c: Code, i: nat, l: nat, j: nat, k: nat)
    requires i < |c| && Chase(c, i, l, j).Some?
    ensures Chase(c, i, l, j + k) == Chase(c, i, Chase(c, i, l, j).value, k)
    decreases j
  {
    hide LeadsOn;
    if j > 0 { ChaseAdd(c, i, LeadsOn(c, i, l).value, j - 1, k); }
  }

  lemma {:induction false} ChaseShorter(c: Code, i: nat, l: nat, j: nat, k: nat)
    requires i < |c| && j <= k && Chase(c, i, l, k).Some?
    ensures Chase(c, i, l, j).Some?
    decreases j
  {
    hide LeadsOn;
    if j > 0 { ChaseShorter(c, i, LeadsOn(c, i, l).value, j - 1, k - 1); }
  }

  /** A label met twice is met again and again. */
  lemma {:induction false} ComesBack(c: Code, i: nat, l: nat, j: nat, n: nat)
    requires i < |c| && j > 0 && Chase(c, i, l, j) == Some(l)
    ensures Chase(c, i, l, n).Some?
    decreases n
  {
    if n < j {
      ChaseShorter(c, i, l, n, j);
    } else {
      ComesBack(c, i, l, j, n - j);
      ChaseAdd(c, i, l, j, n - j);
    }
  }

  /** The jumps met by the first n retries. */
  ghost function Met(c: Code, i: nat, l: nat, n: nat): (s: seq<nat>)
    requires i < |c| && Chase(c, i, l, n).Some?
    ensures |s| == n
    decreases n
  {
    if n == 0 then [] else [Dest(c, l)] + Met(c, i, LeadsOn(c, i, l).value, n - 1)
  }

  lemma {:induction false} MetAt(c: Code, i: nat, l: nat, n: nat, k: nat)
    requires i < |c| && Chase(c, i, l, n).Some? && k < n
    ensures Chase(c, i, l, k).Some? && Chase(c, i, l, k + 1).Some?
    ensures Met(c, i, l, n)[k] == Dest(c, Chase(c, i, l, k).value)
    ensures IsJump(c, Met(c, i, l, n)[k]) && Chase(c, i, l, k + 1) == Some(c[Met(c, i, l, n)[k]].insn.l)
    decreases n
  {
    hide Dest, Next;
    if k == 0 {
      assert Chase(c, i, l, 1) == Chase(c, i, LeadsOn(c, i, l).value, 0);
    } else {
      MetAt(c, i, LeadsOn(c, i, l).value, n - 1, k - 1);
    }
  }

  /** More values below a bound than the bound: two are the same. */
  lemma {:induction false} Pigeons(s: seq<nat>, bound: nat) returns (a: nat, b: nat)
    requires |s| > bound && forall k :: 0 <= k < |s| ==> s[k] < bound
    ensures a < b < |s| && s[a] == s[b]
    decreases bound
  {
    if a0: nat, b0: nat :| a0 < b0 < |s| && s[a0] == s[b0] {
      a, b := a0, b0;
    } else {
      assert s[0] < bound;
      var top := bound - 1;
      if k: nat :| k < |s| && s[k] == top {
        var t := s[..k] + s[k + 1..];
        assert forall j :: 0 <= j < |t| ==> t[j] == s[if j < k then j else j + 1];
        a, b := Pigeons(t, top);
      } else {
        a, b := Pigeons(s, top);
      }
    }
  }

  /** Following a jump more often than the list is long is following it in a circle. */
  lemma Circle(c: Code, i: nat, l: nat) returns (a: nat, b: nat)
    requires i < |c| && Chase(c, i, l, |c| + 1).Some?
    ensures a < b && Chase(c, i, l, a).Some? && Chase(c, i, l, a) == Chase(c, i, l, b)
  {
    hide Chase, Met, LeadsOn, Dest;
    var n := |c| + 1;
    var s := Met(c, i, l, n);
    forall k | 0 <= k < |s| ensures s[k] < |c| { MetAt(c, i, l, n, k); }
    a, b := Pigeons(s, |c|);
    MetAt(c, i, l, n, a);
    MetAt(c, i, l, n, b);
    a, b := a + 1, b + 1;
  }

  /** The retry ends if and only if no label comes back, and then after no more retries than the list
      has elements. */
  lemma FiniteExactly(c: Code, i: nat, l: nat)
    requires i < |c|
    ensures Finite(c, i, l) <==> Chase(c, i, l, |c| + 1).None?
    ensures Finite(c, i, l) <==>
            !exists a: nat, b: nat :: a < b && Chase(c, i, l, a).Some? && Chase(c, i, l, a) == Chase(c, i, l, b)
  {
    hide Chase, LeadsOn;
    if a: nat, b: nat :| a < b && Chase(c, i, l, a).Some? && Chase(c, i, l, a) == Chase(c, i, l, b) {
      var l1 := Chase(c, i, l, a).value;
      ChaseAdd(c, i, l, a, b - a);
      forall n: nat ensures Chase(c, i, l, n).Some? {
        ComesBack(c, i, l1, b - a, n);
        ChaseAdd(c, i, l, a, n);
        ChaseShorter(c, i, l, n, a + n);
      }
    } else if Chase(c, i, l, |c| + 1).Some? {
      var a, b := Circle(c, i, l);
    }
  }

  /** Where the jump at i leads does not matter to its retry. */
  lemma {:induction false} ChaseElsewhere(c: Code, c': Code, i: nat, l: nat, k: nat)
    requires Retargeted(c, c', i)
    ensures LeadsOn(c', i, l) == LeadsOn(c, i, l) && Chase(c', i, l, k) == Chase(c, i, l, k)
    ensures Settle(c', i, l, k) == Settle(c, i, l, k)
    decreases k
  {
    RetargetedKeeps(c, c', i);
    hide Dest, Next;
    if k > 0 && LeadsOn(c, i, l).Some? { ChaseElsewhere(c, c', i, LeadsOn(c, i, l).value, k - 1); }
  }

  // ----- a call -----

  /** What a call did last; before that it may have led the instruction on through jumps. */
  datatype Rewrite = Kept | Removed | Left | Inverted

  /** A jump that is not retried: dropped, replaced by leave, merged with the branch in front, or kept. */
  function LastRound(c: Code, i: nat): (Code, Rewrite)
    requires IsJump(c, i)
  {
    var d, n, p := Dest(c, c[i].insn.l), Next(c, i + 1), Prev(c, i);
    if d == n then (Remove(c, i), Removed)
    else if d != i && IsJump(c, d) then (c, Kept)
    else if d < |c| && c[d] == I(Leave) then (Leaving(c, i), Left)
    else if p.Some? && IsBranch(c, p.value) && n == Dest(c, Target(c[p.value].insn).value) then
      (Remove(Flipped(c, p.value, i), i), Inverted)
    else (c, Kept)
  }

  /** The list with the jump at i led on as far as it goes. */
  function LedOn(c: Code, i: nat): (r: Code)
    requires IsJump(c, i)
  {
    c[i := I(Jump(Settle(c, i, c[i].insn.l, |c| + 1)))]
  }

  /** A call on element i whose retry ends. */
  function Called(c: Code, i: nat): (Code, Rewrite)
    requires i < |c|
  {
    if IsJump(c, i) then LastRound(LedOn(c, i), i)
    else if IsBranch(c, i) then
      var d := Dest(c, Target(c[i].insn).value);
      (if IsJump(c, d) then Threaded(c, i, c[d].insn.l) else c, Kept)
    else (c, Kept)
  }

  // ----- a list changed only in where one instruction leads -----

  ghost predicate Retargeted(c: Code, c': Code, i: nat) {
    && i < |c| && c[i].I? && Target(c[i].insn).Some? && i < |c'| && c'[i].I? && Target(c'[i].insn).Some?
    && c' == c[i := I(To(c[i].insn, Target(c'[i].insn).value))]
  }

  lemma RetargetedKeeps(c: Code, c': Code, i: nat)
    requires Retargeted(c, c', i)
    ensures forall l :: Dest(c', l) == Dest(c, l) && Find(c', l) == Find(c, l)
    ensures Next(c', i + 1) == Next(c, i + 1) && Prev(c', i) == Prev(c, i)
  {
    forall l ensures Dest(c', l) == Dest(c, l) && Find(c', l) == Find(c, l) {
      UpdateKeeps(c, i, c'[i], i + 1, l);
      FindUpdate(c, i, c'[i], l);
    }
    UpdateKeeps(c, i, c'[i], i + 1, 0);
    PrevKeeps(c, i, c'[i], i);
  }

  lemma {:induction false} PrevKeeps(c: Code, i: nat, e: Elem, q: nat)
    requires q <= i < |c|
    ensures Prev(c[i := e], q) == Prev(c, q)
    decreases q
  {
    if q > 0 { PrevKeeps(c, i, e, q - 1); }
  }

  lemma SameSelf(c: Code, depth: map<nat, int>)
    ensures Same(c, c, depth)
  {
  }

  /** One retry keeps what a call relies on, and results. */
  lemma LeadsOnKeeps(c: Code, i: nat, depth: map<nat, int>)
    requires IsJump(c, i) && Targeted(c) && LeadsOn(c, i, c[i].insn.l).Some?
    ensures var c' := Threaded(c, i, LeadsOn(c, i, c[i].insn.l).value);
            && Retargeted(c, c', i) && IsJump(c', i) && Targeted(c') && Same(c, c', depth)
                && (Unjumped(c, i) ==> Unjumped(c', i))
  {
    hide Dest, Next, Find, Same;
    var l := c[i].insn.l;
    var d, l2 := Dest(c, l), LeadsOn(c, i, l).value;
    var c' := Threaded(c, i, l2);
    ThreadSame(c, depth, i, d, l2);
    RetargetedKeeps(c, c', i);
    assert Dest(c, l2) < |c| && (Unjumped(c, i) ==> Dest(c, l2) != i);
    forall q | 0 <= q < |c'| && c'[q].I? && Target(c'[q].insn).Some?
      ensures Dest(c', Target(c'[q].insn).value) < |c'|
      ensures Unjumped(c, i) ==> Dest(c', Target(c'[q].insn).value) != i
    {
      var l := Target(c'[q].insn).value;
      assert if q == i then l == l2 else Target(c[q].insn).value == l;
    }
  }

  /** So do all of them. */
  lemma {:induction false} SettleKeeps(c: Code, i: nat, k: nat, depth: map<nat, int>)
    requires IsJump(c, i) && Targeted(c)
    ensures var c' := c[i := I(Jump(Settle(c, i, c[i].insn.l, k)))];
            && Retargeted(c, c', i) && IsJump(c', i) && Targeted(c') && Same(c, c', depth)
                && (Unjumped(c, i) ==> Unjumped(c', i))
    decreases k
  {
    hide Same, Unjumped, Targeted, LeadsOn;
    var l := c[i].insn.l;
    if k == 0 || LeadsOn(c, i, l).None? {
      assert c[i := I(Jump(l))] == c;
      SameSelf(c, depth);
    } else {
      var l2 := LeadsOn(c, i, l).value;
      var c1 := Threaded(c, i, l2);
      LeadsOnKeeps(c, i, depth);
      ChaseElsewhere(c, c1, i, l2, k - 1);
      SettleKeeps(c1, i, k - 1, depth);
      var c' := c1[i := I(Jump(Settle(c1, i, l2, k - 1)))];
      assert c' == c[i := I(Jump(Settle(c, i, l, k)))];
      SameTrans(c, c1, c', depth);
    }
  }

  /** Where enough retries lead there is no other to be made. */
  lemma {:induction false} SettleStops(c: Code, i: nat, l: nat, k: nat)
    requires i < |c| && Chase(c, i, l, k).None?
    ensures LeadsOn(c, i, Settle(c, i, l, k)).None?
    decreases k
  {
    hide LeadsOn;
    if k > 0 && LeadsOn(c, i, l).Some? { SettleStops(c, i, LeadsOn(c, i, l).value, k - 1); }
  }

  /** Whatever a jump's last round does keeps results, provided nothing else leads to a jump that is merged
      with the branch in front. */
  lemma LastRoundSame(c: Code, i: nat, depth: map<nat, int>)
    requires IsJump(c, i) && (LastRound(c, i).1 == Inverted ==> Unjumped(c, i))
    ensures Same(c, LastRound(c, i).0, depth)
  {
    hide Dest, Next, Find, Prev, Same, Unjumped;
    match LastRound(c, i).1
    case Kept => SameSelf(c, depth);
    case Removed => UselessSame(c, depth, i);
    case Left => LeaveSame(c, depth, i);
    case Inverted => InvertSame(c, depth, Prev(c, i).value, i);
  }

  /** A call keeps results, provided it merges no jump with the branch in front that something else
      leads to. */
  lemma CallSame(c: Code, i: nat, depth: map<nat, int>)
    requires Targeted(c) && i < |c| && (Called(c, i).1 == Inverted ==> Unjumped(c, i))
    ensures Same(c, Called(c, i).0, depth)
  {
    hide Same, Unjumped, Targeted, LastRound, Settle, Dest;
    if IsJump(c, i) {
      var c1 := LedOn(c, i);
      SettleKeeps(c, i, |c| + 1, depth);
      LastRoundSame(c1, i, depth);
      SameTrans(c, c1, Called(c, i).0, depth);
    } else if IsBranch(c, i) {
      var d := Dest(c, Target(c[i].insn).value);
      if IsJump(c, d) { ThreadSame(c, depth, i, d, c[d].insn.l); } else { SameSelf(c, depth); }
    } else {
      SameSelf(c, depth);
    }
  }

  /** A jump that a call keeps leads neither to what follows it nor to leave, nor to a jump to another
      label except itself. */
  lemma KeptSettled(c: Code, i: nat)
    requires IsJump(c, i) && RetryEnds(c, i) && Called(c, i).1 == Kept
    ensures var c' := Called(c, i).0;
            && IsJump(c', i) && Retargeted(c, c', i)
            && var d := Dest(c', c'[i].insn.l);
               && d != Next(c', i + 1) && (d < |c'| ==> c'[d] != I(Leave))
               && (IsJump(c', d) && d != i ==> c'[d] == c'[i])
  {
    hide Dest, Next, Prev, Chase, Settle;
    var l := Settle(c, i, c[i].insn.l, |c| + 1);
    FiniteExactly(c, i, c[i].insn.l);
    SettleStops(c, i, c[i].insn.l, |c| + 1);
    var c1 := LedOn(c, i);
    assert Retargeted(c, c1, i);
    RetargetedKeeps(c, c1, i);
    assert LastRound(c1, i).1 == Kept;
  }

  /** One round for a jump: drop it, lead it on and go again, leave at once, or invert the branch in
      front of it. */
  method Round(list: Anchor, i: nat) returns (kind: Rewrite, again: bool)
    requires IsJump(list.elems, i) && Targeted(list.elems)
    modifies list
    ensures var c := old(list.elems);
            && (again <==> LeadsOn(c, i, c[i].insn.l).Some?)
            && (again ==> list.elems == Threaded(c, i, LeadsOn(c, i, c[i].insn.l).value))
            && (!again ==> (list.elems, kind) == LastRound(c, i))
  {
    hide Dest, Next, Find, Prev;
    var c := list.elems;
    var l := c[i].insn.l;
    var d, n := Dest(c, l), Next(c, i + 1);
    kind, again := Kept, false;
    assert d < |c|;
    if d == n {
      list.elems := Remove(c, i);
      kind := Removed;
    } else if d != i && c[d].I? && c[d].insn.Jump? {
      if c[d].insn.l != l {
        list.elems := Threaded(c, i, c[d].insn.l);
        again := true;
      }
    } else if c[d] == I(Leave) {
      list.elems := Leaving(c, i);
      kind := Left;
    } else {
      var p := Prev(c, i);
      if p.Some? && c[p.value].I? && (c[p.value].insn.BranchIf? || c[p.value].insn.BranchUnless?)
         && n == Dest(c, Target(c[p.value].insn).value) {
        list.elems := Remove(Flipped(c, p.value, i), i);
        kind := Inverted;
      }
    }
  }

  /** iseq_peephole_optimize on element i, which returns exactly when the retry ends. */
  method Optimize(list: Anchor, i: nat) returns (kind: Rewrite)
    requires i < |list.elems| && list.elems[i].I? && Targeted(list.elems) && RetryEnds(list.elems, i)
    modifies list
    ensures (list.elems, kind) == Called(old(list.elems), i)
  {
    hide Dest, Next, Find, Prev, Targeted, LeadsOn, Chase, Settle, LastRound;
    ghost var c0 := list.elems;
    kind := Kept;
    if list.elems[i].insn.Jump? {
      ghost var l0, left: nat := c0[i].insn.l, |c0| + 1;
      FiniteExactly(c0, i, l0);
      assert c0[i := I(Jump(l0))] == c0;
      var again := true;
      while again
        invariant again ==>
                    && IsJump(list.elems, i) && Targeted(list.elems) && Retargeted(c0, list.elems, i)
                    && Chase(c0, i, list.elems[i].insn.l, left).None?
                    && Settle(c0, i, list.elems[i].insn.l, left) == Settle(c0, i, l0, |c0| + 1)
        invariant !again ==> (list.elems, kind) == Called(c0, i)
        decreases again, left
      {
        ghost var c := list.elems;
        kind, again := Round(list, i);
        ChaseElsewhere(c0, c, i, c[i].insn.l, left);
        RetryStep(c0, i, c[i].insn.l, left);
        if again {
          LeadsOnKeeps(c, i, map[]);
          left := left - 1;
        } else {
          assert c == LedOn(c0, i);
        }
      }
    } else {
      PeepholeBranch(list, i);
    }
  }

  lemma RetryStep(c: Code, i: nat, l: nat, k: nat)
    requires i < |c| && Chase(c, i, l, k).None?
    ensures k > 0
    ensures LeadsOn(c, i, l).None? ==> Settle(c, i, l, k) == l
    ensures LeadsOn(c, i, l).Some? ==>
              && Chase(c, i, LeadsOn(c, i, l).value, k - 1).None?
              && Settle(c, i, LeadsOn(c, i, l).value, k - 1) == Settle(c, i, l, k)
  {
    hide LeadsOn;
  }

  /** A branch is led on once. */
  method PeepholeBranch(list: Anchor, i: nat)
    requires i < |list.elems| && list.elems[i].I? && !list.elems[i].insn.Jump? && Targeted(list.elems)
    modifies list
    ensures (list.elems, Kept) == Called(old(list.elems), i)
  {
    hide Dest;
    var c := list.elems;
    if c[i].insn.BranchIf? || c[i].insn.BranchUnless? {
      var d := Dest(c, Target(c[i].insn).value);
      if c[d].I? && c[d].insn.Jump? { list.elems := Threaded(c, i, c[d].insn.l); }
    }
  }
}
