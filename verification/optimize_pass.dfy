/** iseq_optimize: one call of the peephole step for every instruction of a list, front to back. */
module OptimizePass {
  import opened Nodes
  import opened Options
  import opened Lowering
  import opened Machine
  import opened Emission
  import opened Peephole
  import opened PeepholeStep

  /** The list ends in leave, and every label jumped to is placed. */
  ghost predicate Sealed(c: Code) {
    && c != [] && c[|c| - 1] == I(Leave)
    && forall q :: 0 <= q < |c| && c[q].I? && Target(c[q].insn).Some? ==> Find(c, Target(c[q].insn).value) < |c|
  }

  lemma SealedDest(c: Code, l: nat)
    requires c != [] && c[|c| - 1] == I(Leave) && Find(c, l) < |c|
    ensures Find(c, l) < Dest(c, l) < |c|
  {
    FindPlaced(c, l);
    var q := Find(c, l) + 1;
    NextSkips(c, q);
    assert q < |c|;
    hide Find;
    assert !c[|c| - 1].L?;
  }

  /** A compiled program is such a list. */
  lemma CompileSealed(n: Node)
    requires WellFormed(n, false)
    ensures Sealed(Compile(n))
  {
    var c := Compile(n);
    assert c[|c| - 1] == I(Leave);
    hide Compile, WellFormed, Defs, Refs;
    forall q | 0 <= q < |c| && c[q].I? && Target(c[q].insn).Some? ensures Find(c, Target(c[q].insn).value) < |c| {
      var l := Target(c[q].insn).value;
      RefCounts(c, l, q);
      CompileLabels(n, l);
      FindPlaced(c, l);
    }
  }

  lemma SealedTargeted(c: Code)
    requires Sealed(c)
    ensures Targeted(c)
  {
    hide Find, Dest;
    forall q | 0 <= q < |c| && c[q].I? && Target(c[q].insn).Some? ensures Dest(c, Target(c[q].insn).value) < |c| {
      SealedDest(c, Target(c[q].insn).value);
    }
  }

  /** Which element comes next after a call at i: the loop goes on behind the instruction it was called
      on, or behind what stands in its place. */
  function Behind(i: nat, kind: Rewrite): nat {
    match kind
    case Kept => i + 1
    case Removed => i
    case Left => i + 2
    case Inverted => i
  }

  lemma CalledSize(c: Code, i: nat)
    requires i < |c|
    ensures var (c', kind) := Called(c, i);
            Behind(i, kind) <= |c'| && |c'| - Behind(i, kind) == |c| - i - 1 && c'[Behind(i, kind)..] == c[i + 1..]
  {
    hide Dest, Next, Settle;
  }

  /** The list that the calls from element i on leave. */
  function PassFrom(c: Code, i: nat): Code
    requires i <= |c|
    decreases |c| - i
  {
    if i == |c| then c
    else if !c[i].I? then PassFrom(c, i + 1)
    else
      CalledSize(c, i);
      PassFrom(Called(c, i).0, Behind(i, Called(c, i).1))
  }

  /** Every retry on the way ends. */
  ghost predicate AllEnd(c: Code, i: nat)
    requires i <= |c|
    decreases |c| - i
  {
    if i == |c| then true
    else if !c[i].I? then AllEnd(c, i + 1)
    else
      CalledSize(c, i);
      RetryEnds(c, i) && AllEnd(Called(c, i).0, Behind(i, Called(c, i).1))
  }

  /** No call on the way merges a jump that something leads to with the branch in front of it. */
  predicate Clean(c: Code, i: nat)
    requires i <= |c|
    decreases |c| - i
  {
    if i == |c| then true
    else if !c[i].I? then Clean(c, i + 1)
    else
      CalledSize(c, i);
      (Called(c, i).1 == Inverted ==> Unjumped(c, i)) && Clean(Called(c, i).0, Behind(i, Called(c, i).1))
  }

  // ----- what every call keeps -----

  lemma {:induction false} FindLeaving(c: Code, i: nat, l: nat)
    requires i < |c| && !c[i].L?
    ensures Find(Leaving(c, i), l) == if Find(c, l) <= i then Find(c, l) else Find(c, l) + 1
  {
    var c' := Leaving(c, i);
    assert Remove(c', i + 1) == c[i := I(Leave)];
    FindRemove(c', i + 1, l);
    FindUpdate(c, i, I(Leave), l);
    FindPlaced(c', l);
    FindPlaced(c, l);
    hide Find;
    assert c'[i + 1] == I(Pop);
  }

  lemma SealedRemove(c: Code, i: nat)
    requires Sealed(c) && i < |c| - 1 && !c[i].L?
    ensures Sealed(Remove(c, i))
  {
    var c' := Remove(c, i);
    hide Find;
    forall q | 0 <= q < |c'| && c'[q].I? && Target(c'[q].insn).Some? ensures Find(c', Target(c'[q].insn).value) < |c'| {
      var r := if q < i then q else q + 1;
      assert c'[q] == c[r];
      FindPlaced(c, Target(c[r].insn).value);
      FindRemove(c, i, Target(c[r].insn).value);
    }
  }

  lemma SealedUpdate(c: Code, i: nat, e: Elem)
    requires Sealed(c) && i < |c| - 1 && !c[i].L? && !e.L?
    requires e.I? && Target(e.insn).Some? ==> Find(c, Target(e.insn).value) < |c|
    ensures Sealed(c[i := e])
  {
    var c' := c[i := e];
    hide Find;
    forall q | 0 <= q < |c'| && c'[q].I? && Target(c'[q].insn).Some? ensures Find(c', Target(c'[q].insn).value) < |c'| {
      FindUpdate(c, i, e, Target(c'[q].insn).value);
    }
  }

  lemma SealedLeaving(c: Code, i: nat)
    requires Sealed(c) && i < |c| - 1 && !c[i].L?
    ensures Sealed(Leaving(c, i))
  {
    var c' := Leaving(c, i);
    hide Find;
    forall q | 0 <= q < |c'| && c'[q].I? && Target(c'[q].insn).Some? ensures Find(c', Target(c'[q].insn).value) < |c'| {
      var r := if q < i then q else q - 1;
      assert q != i && q != i + 1 && c'[q] == c[r];
      FindLeaving(c, i, Target(c[r].insn).value);
    }
  }

  /** The jumps that are followed lead to placed labels. */
  lemma {:induction false} SettlePlaced(c: Code, i: nat, l: nat, k: nat)
    requires Sealed(c) && i < |c| && Find(c, l) < |c|
    ensures Find(c, Settle(c, i, l, k)) < |c|
    decreases k
  {
    hide Find, Dest;
    if k > 0 && LeadsOn(c, i, l).Some? {
      var d := Dest(c, l);
      assert Target(c[d].insn) == Some(c[d].insn.l);
      SettlePlaced(c, i, LeadsOn(c, i, l).value, k - 1);
    }
  }

  lemma NotLast(c: Code, i: nat)
    requires Sealed(c) && i < |c| && c[i].I? && Target(c[i].insn).Some?
    ensures i < |c| - 1
  {
  }

  lemma LastRoundSealed(c: Code, i: nat)
    requires Sealed(c) && IsJump(c, i)
    ensures Sealed(LastRound(c, i).0)
  {
    hide Find, Dest, Next;
    NotLast(c, i);
    match LastRound(c, i).1
    case Kept =>
    case Removed => SealedRemove(c, i);
    case Left => SealedLeaving(c, i);
    case Inverted =>
      var p := Prev(c, i).value;
      assert Find(c, c[i].insn.l) < |c| by { assert Target(c[i].insn) == Some(c[i].insn.l); }
      SealedUpdate(c, p, I(Opposite(c[p].insn, c[i].insn.l)));
      SealedRemove(Flipped(c, p, i), i);
  }

  lemma CalledSealed(c: Code, i: nat)
    requires Sealed(c) && i < |c|
    ensures Sealed(Called(c, i).0)
  {
    hide Find, Dest, Next, Settle, LastRound, Sealed;
    if IsJump(c, i) {
      NotLast(c, i);
      var l := c[i].insn.l;
      assert Find(c, l) < |c| by { JumpPlaced(c, i); }
      SettlePlaced(c, i, l, |c| + 1);
      SealedUpdate(c, i, I(Jump(Settle(c, i, l, |c| + 1))));
      LastRoundSealed(LedOn(c, i), i);
    } else if IsBranch(c, i) {
      NotLast(c, i);
      var d := Dest(c, Target(c[i].insn).value);
      if IsJump(c, d) {
        JumpPlaced(c, d);
        SealedUpdate(c, i, I(To(c[i].insn, c[d].insn.l)));
      }
    }
  }

  lemma JumpPlaced(c: Code, q: nat)
    requires Sealed(c) && IsJump(c, q)
    ensures Find(c, c[q].insn.l) < |c|
  {
    assert Target(c[q].insn) == Some(c[q].insn.l);
  }

  // ----- the whole pass -----

  /** The pass keeps results, provided every merged jump was one that nothing else led to. */
  lemma {:induction false} PassSame(c: Code, i: nat, depth: map<nat, int>)
    requires Sealed(c) && i <= |c| && Clean(c, i)
    ensures Sealed(PassFrom(c, i)) && Same(c, PassFrom(c, i), depth)
    decreases |c| - i
  {
    hide Same, Unjumped, Sealed, Called;
    if i == |c| {
      SameSelf(c, depth);
    } else if !c[i].I? {
      PassSame(c, i + 1, depth);
    } else {
      CalledSize(c, i);
      var (c1, kind) := Called(c, i);
      SealedTargeted(c);
      CallSame(c, i, depth);
      CalledSealed(c, i);
      PassSame(c1, Behind(i, kind), depth);
      SameTrans(c, c1, PassFrom(c1, Behind(i, kind)), depth);
    }
  }

  /** iseq_optimize, which returns exactly when every retry on the way ends. */
  method IseqOptimize(list: Anchor)
    requires Sealed(list.elems) && AllEnd(list.elems, 0)
    modifies list
    ensures list.elems == PassFrom(old(list.elems), 0)
  {
    hide Sealed, Targeted, Called, RetryEnds;
    var i: nat := 0;
    while i < |list.elems|
      invariant i <= |list.elems| && Sealed(list.elems) && AllEnd(list.elems, i)
      invariant PassFrom(list.elems, i) == PassFrom(old(list.elems), 0)
      decreases |list.elems| - i
    {
      if list.elems[i].I? {
        ghost var c := list.elems;
        SealedTargeted(c);
        CalledSealed(c, i);
        CalledSize(c, i);
        var kind := Optimize(list, i);
        assert list.elems == Called(c, i).0 && kind == Called(c, i).1;
        i := Behind(i, kind);
      } else {
        i := i + 1;
      }
    }
  }
}
