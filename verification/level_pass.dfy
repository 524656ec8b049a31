/** Every call of iseq_optimize keeps a list level, with the same depth at each label. */
module LevelPass {
  import opened Nodes
  import opened Options
  import opened Lowering
  import opened Depths
  import opened Peephole
  import opened PeepholeStep
  import opened OptimizePass
  import opened NeatLists
  import opened Levels

  // ----- where a label leads -----

  lemma LevelHere(c: Code, h: Heights, q: nat)
    requires Leveled(c, h) && q < |c|
    ensures LevelAt(c, h, {}, 0, false, q) && Deep(c, h, q + 1) == Past(c[q], h, Deep(c, h, q))
  {
    hide LevelAt;
  }

  /** The depth at a jump or branch's label is the one behind it. */
  lemma LevelTarget(c: Code, h: Heights, q: nat)
    requires Leveled(c, h) && q < |c| && c[q].I? && Target(c[q].insn).Some?
    ensures Target(c[q].insn).value in h && h[Target(c[q].insn).value] == Deep(c, h, q + 1)
  {
    hide Level, Real;
    LevelHere(c, h, q);
  }

  /** Labels in a row have one depth. */
  lemma {:induction false} RowDeep(c: Code, h: Heights, a: nat, b: nat)
    requires Leveled(c, h) && 0 < a <= b <= |c| && !Ending(c[a - 1]) && forall j :: a <= j < b ==> c[j].L?
    ensures Deep(c, h, b) == Deep(c, h, a)
    decreases b
  {
    hide Level, Real;
    if a < b {
      RowDeep(c, h, a, b - 1);
      LevelHere(c, h, b - 1);
    }
  }

  lemma LabelDeep(c: Code, h: Heights, q: nat)
    requires Leveled(c, h) && q < |c| && c[q].L?
    ensures c[q].l in h && Deep(c, h, q + 1) == h[c[q].l] >= 0
  {
    hide Level, Real;
    LevelHere(c, h, q);
  }

  lemma LeadsDeep(c: Code, h: Heights, l: nat)
    requires Leveled(c, h) && Find(c, l) < |c|
    ensures l in h && Dest(c, l) <= |c| && Deep(c, h, Dest(c, l)) == h[l]
  {
    hide Leveled, Real, Find, Dest;
    Landing(c, l);
    FindIn(c, l);
    LabelDeep(c, h, Find(c, l));
    RowDeep(c, h, Find(c, l) + 1, Dest(c, l));
  }

  /** Where a label leads right behind element i, labels of its depth follow i. */
  lemma BehindDeep(c: Code, h: Heights, i: nat, l: nat)
    requires Leveled(c, h) && Find(c, l) < |c| && i < |c| && !c[i].L? && Dest(c, l) == Next(c, i + 1)
    ensures i + 1 < |c| && c[i + 1].L? && c[i + 1].l in h && l in h && h[c[i + 1].l] == h[l]
  {
    hide Leveled, Real, Find, Dest, Next;
    Landing(c, l);
    NextSkips(c, i + 1);
    LeadsDeep(c, h, l);
    assert i + 1 < Dest(c, l);
    LabelDeep(c, h, i + 1);
    RowDeep(c, h, i + 2, Dest(c, l));
  }

  // ----- lists that differ in one place -----

  lemma {:induction false} DeepUpdate(c: Code, h: Heights, i: nat, e: Elem, q: nat)
    requires i < |c| && c[i].I? && e.I? && Effect(e.insn) == Effect(c[i].insn) && q <= |c|
    ensures Deep(c[i := e], h, q) == Deep(c, h, q)
    decreases q
  {
    if q > 0 { DeepUpdate(c, h, i, e, q - 1); }
  }

  lemma KnownUpdate(c: Code, i: nat, e: Elem, q: nat, l: nat)
    requires i < |c| && !c[i].L? && q <= |c| && Known(c, {}, q, l)
    ensures Known(c[i := e], {}, q, l)
  {
    var r :| 0 <= r < q && c[r] == L(l);
    assert c[i := e][r] == L(l);
  }

  /** A jump or branch led elsewhere, or a branch inverted. */
  lemma LeveledUpdate(c: Code, h: Heights, i: nat, e: Insn)
    requires Leveled(c, h) && (IsJump(c, i) || IsBranch(c, i)) && Target(e).Some? && (e.Jump? <==> IsJump(c, i))
    requires Target(e).value in h && h[Target(e).value] == Deep(c, h, i + 1)
    ensures Leveled(c[i := I(e)], h) && forall q :: 0 <= q <= |c| ==> Deep(c[i := I(e)], h, q) == Deep(c, h, q)
  {
    hide Real;
    var c' := c[i := I(e)];
    forall q | 0 <= q <= |c| ensures Deep(c', h, q) == Deep(c, h, q) { DeepUpdate(c, h, i, I(e), q); }
    forall q | 0 <= q < |c| ensures LevelAt(c', h, {}, 0, false, q) {
      LevelHere(c, h, q);
      if c[q].Adj? { KnownUpdate(c, i, I(e), q, c[q].l); }
    }
  }

  lemma {:induction false} DeepRemove(c: Code, h: Heights, i: nat, q: nat)
    requires IsJump(c, i) && q <= |c|
    ensures q <= i ==> Deep(Remove(c, i), h, q) == Deep(c, h, q)
    ensures q > i ==> Deep(Remove(c, i), h, q - 1) == Deep(c, h, q)
    decreases q
  {
    if q > 0 {
      DeepRemove(c, h, i, q - 1);
      assert q - 1 < i ==> Remove(c, i)[q - 1] == c[q - 1];
      assert q - 1 > i ==> Remove(c, i)[q - 2] == c[q - 1];
    }
  }

  lemma KnownRemove(c: Code, i: nat, q: nat, l: nat)
    requires i < |c| && !c[i].L? && q <= |c| && Known(c, {}, q, l)
    ensures Known(Remove(c, i), {}, if q <= i then q else q - 1, l)
  {
    var r :| 0 <= r < q && c[r] == L(l);
    assert Remove(c, i)[if r < i then r else r - 1] == L(l);
  }

  /** A jump dropped in front of a label of its depth. */
  lemma LeveledRemove(c: Code, h: Heights, i: nat)
    requires Leveled(c, h) && IsJump(c, i) && i + 1 < |c| && c[i + 1].L? && c[i + 1].l in h
    requires h[c[i + 1].l] == Deep(c, h, i)
    ensures Leveled(Remove(c, i), h)
  {
    hide Real;
    var c' := Remove(c, i);
    LevelHere(c, h, i);
    forall q | 0 <= q < |c'| ensures LevelAt(c', h, {}, 0, false, q) {
      var r := if q < i then q else q + 1;
      assert c'[q] == c[r];
      LevelHere(c, h, r);
      DeepRemove(c, h, i, r);
      if c[r].Adj? { KnownRemove(c, i, r, c[r].l); }
      if q > 0 && q != i { assert c'[q - 1] == c[r - 1]; }
      if IsJump(c, r) && Deep(c, h, r) > 0 {
        assert Ground(c, h, r + 1) && r + 1 != i;
        assert c'[q + 1] == c[r + 1];
      }
    }
  }

  lemma {:induction false} DeepLeaving(c: Code, h: Heights, i: nat, q: nat)
    requires Leveled(c, h) && IsJump(c, i) && Deep(c, h, i) == 1 && q <= |c|
    ensures q <= i ==> Deep(Leaving(c, i), h, q) == Deep(c, h, q)
    ensures q == i + 1 ==> Deep(Leaving(c, i), h, q) == 1 && Deep(Leaving(c, i), h, q + 1) == 0
    ensures q > i + 1 ==> Deep(Leaving(c, i), h, q + 1) == Deep(c, h, q)
    decreases q
  {
    var c' := Leaving(c, i);
    if q > 0 {
      DeepLeaving(c, h, i, q - 1);
      if q - 1 < i {
        assert c'[q - 1] == c[q - 1];
      } else if q - 1 == i {
        assert c'[i] == I(Leave) && c'[i + 1] == I(Pop);
      } else {
        assert c'[q] == c[q - 1];
        if q - 1 == i + 1 {
          LevelHere(c, h, i);
          LevelHere(c, h, i + 1);
        }
      }
    }
  }

  lemma KnownLeaving(c: Code, i: nat, q: nat, l: nat)
    requires i < |c| && !c[i].L? && q <= |c| && Known(c, {}, q, l)
    ensures Known(Leaving(c, i), {}, if q <= i then q else q + 1, l)
  {
    var r :| 0 <= r < q && c[r] == L(l);
    assert Leaving(c, i)[if r < i then r else r + 1] == L(l);
  }

  /** A jump above the ground turned into leave, and a pop for what follows. */
  lemma LeveledLeaving(c: Code, h: Heights, i: nat)
    requires Leveled(c, h) && IsJump(c, i) && Deep(c, h, i) == 1
    ensures Leveled(Leaving(c, i), h)
  {
    hide Real;
    var c' := Leaving(c, i);
    LevelHere(c, h, i);
    forall q | 0 <= q < |c'| ensures LevelAt(c', h, {}, 0, false, q) {
      if q == i || q == i + 1 {
        DeepLeaving(c, h, i, i);
        DeepLeaving(c, h, i, i + 1);
        assert c'[i] == I(Leave) && c'[i + 1] == I(Pop);
      } else {
        var r := if q < i then q else q - 1;
        assert c'[q] == c[r];
        LevelHere(c, h, r);
        DeepLeaving(c, h, i, r);
        if c[r].Adj? { KnownLeaving(c, i, r, c[r].l); }
        if q > 0 && q != i + 2 { assert c'[q - 1] == c[r - 1]; }
        if IsJump(c, r) && Deep(c, h, r) > 0 {
          assert Ground(c, h, r + 1) && r + 1 != i;
          assert c'[q + 1] == c[r + 1];
        }
      }
    }
  }

  // ----- a call -----

  /** All labels a retry meets have the depth of the jump. */
  lemma {:induction false} SettleDeep(c: Code, h: Heights, i: nat, l: nat, k: nat)
    requires Sealed(c) && Leveled(c, h) && i < |c| && Find(c, l) < |c|
    ensures var r := Settle(c, i, l, k); Find(c, r) < |c| && l in h && r in h && h[r] == h[l]
    decreases k
  {
    hide Find, Dest, Next, Leveled, Sealed, Real;
    LeadsDeep(c, h, l);
    if k > 0 && LeadsOn(c, i, l).Some? {
      var d := Dest(c, l);
      JumpPlaced(c, d);
      JumpDeep(c, h, d);
      LeadsDeep(c, h, c[d].insn.l);
      SettleDeep(c, h, i, c[d].insn.l, k - 1);
    }
  }

  lemma JumpDeep(c: Code, h: Heights, q: nat)
    requires Leveled(c, h) && IsJump(c, q)
    ensures c[q].insn.l in h && h[c[q].insn.l] == Deep(c, h, q) == Deep(c, h, q + 1)
  {
    hide Level, Real;
    LevelHere(c, h, q);
  }

  /** A jump whose retry has ended. */
  lemma LastRoundLevel(c: Code, h: Heights, i: nat)
    requires Sealed(c) && Leveled(c, h) && IsJump(c, i)
    ensures Leveled(LastRound(c, i).0, h)
  {
    hide Find, Dest, Next, Prev, Leveled, Sealed, Real;
    var l := c[i].insn.l;
    JumpPlaced(c, i);
    JumpDeep(c, h, i);
    match LastRound(c, i).1
    case Kept =>
    case Removed =>
      BehindDeep(c, h, i, l);
      LeveledRemove(c, h, i);
    case Left =>
      LeadsDeep(c, h, l);
      LevelHere(c, h, Dest(c, l));
      LeveledLeaving(c, h, i);
    case Inverted =>
      MergedLevel(c, h, i, Prev(c, i).value);
  }

  lemma MergedLevel(c: Code, h: Heights, i: nat, p: nat)
    requires Sealed(c) && Leveled(c, h) && IsJump(c, i) && Prev(c, i) == Some(p) && IsBranch(c, p)
    requires Next(c, i + 1) == Dest(c, Target(c[p].insn).value)
    ensures Leveled(Remove(Flipped(c, p, i), i), h)
  {
    hide Find, Dest, Next, Level, Sealed, Real;
    var l := Target(c[p].insn).value;
    JumpDeep(c, h, i);
    BranchFound(c, p);
    BehindDeep(c, h, i, l);
    LevelHere(c, h, p);
    RowDeep(c, h, p + 1, i);
    LeveledUpdate(c, h, p, Opposite(c[p].insn, c[i].insn.l));
    LeveledRemove(Flipped(c, p, i), h, i);
  }

  lemma BranchFound(c: Code, q: nat)
    requires Sealed(c) && IsBranch(c, q)
    ensures Find(c, Target(c[q].insn).value) < |c|
  {
  }

  lemma CalledLevel(c: Code, h: Heights, i: nat)
    requires Sealed(c) && Leveled(c, h) && i < |c|
    ensures Leveled(Called(c, i).0, h)
  {
    hide Find, Dest, Next, Settle, LastRound, Sealed, Real, Level;
    if IsJump(c, i) {
      var r := Settle(c, i, c[i].insn.l, |c| + 1);
      JumpPlaced(c, i);
      JumpDeep(c, h, i);
      SettleDeep(c, h, i, c[i].insn.l, |c| + 1);
      LeveledUpdate(c, h, i, Jump(r));
      LedOnSealed(c, i);
      LastRoundLevel(LedOn(c, i), h, i);
    } else if IsBranch(c, i) {
      var l := Target(c[i].insn).value;
      var d := Dest(c, l);
      BranchFound(c, i);
      LevelHere(c, h, i);
      LeadsDeep(c, h, l);
      if IsJump(c, d) {
        JumpDeep(c, h, d);
        LeveledUpdate(c, h, i, To(c[i].insn, c[d].insn.l));
      }
    }
  }

  lemma LedOnSealed(c: Code, i: nat)
    requires Sealed(c) && IsJump(c, i)
    ensures Sealed(LedOn(c, i))
  {
    hide Find, Dest, Next, Settle, Sealed;
    NotLast(c, i);
    JumpPlaced(c, i);
    SettlePlaced(c, i, c[i].insn.l, |c| + 1);
    SealedUpdate(c, i, I(Jump(Settle(c, i, c[i].insn.l, |c| + 1))));
  }

  // ----- the pass -----

  /** The list left by iseq_optimize is level, with the same depths at its labels. */
  lemma {:induction false} PassLevel(c: Code, h: Heights, i: nat)
    requires Sealed(c) && Leveled(c, h) && i <= |c|
    ensures Sealed(PassFrom(c, i)) && Leveled(PassFrom(c, i), h)
    decreases |c| - i
  {
    hide Sealed, Leveled, Called;
    if i == |c| {
    } else if !c[i].I? {
      PassLevel(c, h, i + 1);
    } else {
      CalledSize(c, i);
      var (c1, kind) := Called(c, i);
      CalledSealed(c, i);
      CalledLevel(c, h, i);
      PassLevel(c1, h, OptimizePass.Behind(i, kind));
    }
  }

  lemma CalledOnce(c: Code, i: nat)
    requires Sealed(c) && Once(c) && i < |c|
    ensures Once(Called(c, i).0)
  {
    hide Find, Dest, Next, Settle, Sealed, Once, Called;
    if IsJump(c, i) {
      CalledIs(c, i);
      var r := Settle(c, i, c[i].insn.l, |c| + 1);
      match Called(c, i).1
      case Kept => OnceUpdate(c, i, I(Jump(r)));
      case Removed => OnceRemove(c, i);
      case Left => OnceLeaving(c, i);
      case Inverted =>
        var p := Prev(c, i).value;
        var e := I(Opposite(c[p].insn, r));
        OnceUpdate(c, p, e);
        OnceRemove(c[p := e], i);
    } else {
      BranchCalled(c, i);
      if Called(c, i).0 != c { OnceUpdate(c, i, Called(c, i).0[i]); }
    }
  }

  lemma BranchCalled(c: Code, i: nat)
    requires i < |c| && !IsJump(c, i)
    ensures var c' := Called(c, i).0;
            c' == c || (IsBranch(c, i) && i < |c'| && IsBranch(c', i) && c' == c[i := c'[i]])
  {
    hide Dest;
  }

  /** No label is placed twice in it. */
  lemma {:induction false} PassOnce(c: Code, i: nat)
    requires Sealed(c) && Once(c) && i <= |c|
    ensures Once(PassFrom(c, i))
    decreases |c| - i
  {
    hide Sealed, Once, Called;
    if i == |c| {
    } else if !c[i].I? {
      PassOnce(c, i + 1);
    } else {
      CalledSize(c, i);
      var (c1, kind) := Called(c, i);
      CalledSealed(c, i);
      CalledOnce(c, i);
      PassOnce(c1, OptimizePass.Behind(i, kind));
    }
  }
}
