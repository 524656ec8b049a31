/** Two conditions on the tree under which the optimised list links and its adjustments pop nothing: without
    break, or when no conditional whose value is used has an else part that starts with a jump. */
module SettledTrees {
  import opened Nodes
  import opened Options
  import opened Lowering
  import opened Depths
  import opened Machine
  import opened Meaning
  import opened Linking
  import opened Peephole
  import opened PeepholeStep
  import opened OptimizePass
  import NeatLists
  import TidyPieces
  import TidyTrees
  import opened Levels
  import opened LevelPass
  import opened Relinking
  import opened Relinked

  // ----- labels met above their depth -----

  /** A label behind a jump to a deeper one. */
  predicate Drops(c: Code, h: Heights, q: nat) {
    && 0 < q < |c| && c[q].L? && c[q].l in h && IsJump(c, q - 1)
    && c[q - 1].insn.l in h && h[c[q - 1].insn.l] > h[c[q].l]
  }

  predicate Branched(c: Code, q: nat, l: nat) {
    exists r: nat :: r < q && IsBranch(c, r) && Target(c[r].insn) == Some(l)
  }

  /** Every such label has a branch to it in front, or is one of those in open, and no jump behind it. */
  ghost predicate Held(c: Code, h: Heights, open: set<nat>) {
    forall q: nat :: Drops(c, h, q) ==> TidyPieces.Solid(c, q + 1) && (c[q].l in open || Branched(c, q, c[q].l))
  }

  /** One piece behind the other: what is open in the second may be branched to in the first. */
  lemma HeldJoin(a: Code, b: Code, h: Heights, open: set<nat>, open': set<nat>)
    requires Held(a, h, open) && Held(b, h, open') && !Drops(a + b, h, |a|)
    requires forall l :: l in open' ==> l in open || Branched(a, |a|, l)
    ensures Held(a + b, h, open)
  {
    var c := a + b;
    forall q: nat | Drops(c, h, q)
      ensures TidyPieces.Solid(c, q + 1) && (c[q].l in open || Branched(c, q, c[q].l))
    {
      if q < |a| {
        assert c[q] == a[q] && c[q - 1] == a[q - 1];
        assert Drops(a, h, q) && c[q + 1] == a[q + 1];
        if c[q].l !in open { BranchedLeft(a, b, q, q, c[q].l); }
      } else {
        var p := q - |a|;
        assert c[q] == b[p] && c[q - 1] == b[p - 1];
        assert Drops(b, h, p) && c[q + 1] == b[p + 1];
        if c[q].l !in open {
          if c[q].l in open' { BranchedLeft(a, b, |a|, q, c[q].l); } else { BranchedRight(a, b, p, c[q].l); }
        }
      }
    }
  }

  lemma BranchedLeft(a: Code, b: Code, q: nat, q': nat, l: nat)
    requires q <= q' && q <= |a| && Branched(a, q, l)
    ensures Branched(a + b, q', l)
  {
    var r: nat :| r < q && IsBranch(a, r) && Target(a[r].insn) == Some(l);
    assert (a + b)[r] == a[r];
  }

  lemma BranchedRight(a: Code, b: Code, q: nat, l: nat)
    requires Branched(b, q, l)
    ensures Branched(a + b, |a| + q, l)
  {
    var r: nat :| r < q && IsBranch(b, r) && Target(b[r].insn) == Some(l);
    assert (a + b)[|a| + r] == b[r];
  }

  /** Behind code that does not end with a jump, or ends with a low one in front of a label. */
  lemma HeldThen(a: Code, b: Code, h: Heights)
    requires Held(a, h, {}) && Held(b, h, {})
    requires !CutOff(a, false, |a|) || (b != [] && b[0].L? && Low(a, h, b[0].l))
    ensures Held(a + b, h, {})
  {
    NoDrop(a, b, h);
    HeldJoin(a, b, h, {}, {});
  }

  lemma NoDrop(a: Code, b: Code, h: Heights)
    requires !CutOff(a, false, |a|) || (b != [] && b[0].L? && Low(a, h, b[0].l))
    ensures !Drops(a + b, h, |a|)
  {
    var c := a + b;
    if 0 < |a| < |c| { assert c[|a| - 1] == a[|a| - 1] && c[|a|] == b[0]; }
  }

  /** The jump that ends the list leads no higher than label l. */
  predicate Low(a: Code, h: Heights, l: nat) {
    a != [] && IsJump(a, |a| - 1) && l in h && a[|a| - 1].insn.l in h && h[a[|a| - 1].insn.l] <= h[l]
  }

  lemma HeldFlat(c: Code, h: Heights)
    requires forall q :: 0 < q < |c| && IsJump(c, q - 1) ==> !c[q].L?
    ensures Held(c, h, {})
  {
  }

  // ----- which trees -----

  /** The code of the test has a branch to its else label. */
  predicate Branches(c: Node) {
    match c
    case And(a, b) => Branches(a) || Branches(b)
    case Or(_, b) => Branches(b)
    case Lit(_) => false
    case TrueLit => false
    case FalseLit => false
    case NilLit => false
    case _ => true
  }

  /** Where the value of a conditional is used, its test has such a branch, and its else part starts with
      neither a jump nor an adjustment. */
  predicate Settled(n: Node, poped: bool)
    decreases n, 0
  {
    match n
    case LAsgn(_, value) => Settled(value, false)
    case Block(head, next) =>
      if next.Absent? then Settled(head, poped) else Settled(head, true) && Settled(next, poped)
    case If(cond, body, els) =>
      && SettledTest(cond) && Settled(body, poped) && Settled(els, poped)
      && (poped || (Branches(cond) && TidyTrees.Plain(els, false)))
    case And(a, b) => Settled(a, false) && Settled(b, poped)
    case Or(a, b) => Settled(a, false) && Settled(b, poped)
    case While(cond, body, _, _) => SettledTest(cond) && Settled(body, true)
    case Break(value) => Settled(value, false)
    case _ => true
  }

  predicate SettledTest(c: Node)
    decreases c, 1
  {
    match c
    case And(a, b) => SettledTest(a) && SettledTest(b)
    case Or(a, b) => SettledTest(a) && SettledTest(b)
    case Lit(_) => true
    case TrueLit => true
    case FalseLit => true
    case NilLit => true
    case _ => Settled(c, false)
  }

  // ----- their code -----

  lemma {:induction false} NodeHeld(n: Node, poped: bool, ctx: Loop, k: nat, h: Heights, base: set<nat>)
    requires WellFormed(n, ctx.InLoop?) && Settled(n, poped) && Fits(h, n, poped, k) && FitsLoop(h, base, ctx)
    ensures Held(Lower(n, poped, ctx, k), h, {}) && !CutOff(Lower(n, poped, ctx, k), false, |Lower(n, poped, ctx, k)|)
    decreases n, 2
  {
    hide Lower, LowerCond, Labels, CondLabels, WellFormed, Fits, Height, Held, TidyTrees.Plain, Level, Real;
    NodeRuns(n, poped, ctx, k, h, base);
    match n
    case LAsgn(i, value) =>
      AsgnParts(n, ctx.InLoop?);
      AsgnShape(n, poped, ctx, k);
      AsgnFits(h, n, poped, k);
      NodeHeld(value, false, ctx, k, h, base);
      HeldFlat(Unless(poped, [I(Dup)]) + [I(SetLocal(i))], h);
      HeldThen(Lower(value, false, ctx, k), Unless(poped, [I(Dup)]) + [I(SetLocal(i))], h);
    case Block(head, next) =>
      BlockParts(n, ctx.InLoop?);
      BlockShape(n, poped, ctx, k);
      BlockFits(h, n, poped, k);
      if next.Absent? {
        NodeHeld(head, poped, ctx, k, h, base);
      } else {
        NodeHeld(head, true, ctx, k, h, base);
        NodeHeld(next, poped, ctx, k + Labels(head), h, base);
        HeldThen(Lower(head, true, ctx, k), Lower(next, poped, ctx, k + Labels(head)), h);
      }
    case If(_, _, _) => IfHeld(n, poped, ctx, k, h, base);
    case And(_, _) => ShortHeld(n, poped, ctx, k, h, base);
    case Or(_, _) => ShortHeld(n, poped, ctx, k, h, base);
    case While(_, _, _, _) => WhileHeld(n, poped, ctx, k, h, base);
    case Break(_) => BreakHeld(n, poped, ctx, k, h, base);
    case _ =>
      LeafShape(n, poped, ctx, k);
      HeldFlat(Lower(n, poped, ctx, k), h);
  }

  /** The code of a test ends with a jump to a label at the ground. */
  lemma {:induction false} TestHeld(c: Node, t: nat, e: nat, ctx: Loop, k: nat, h: Heights, base: set<nat>)
    requires WellFormed(c, ctx.InLoop?) && SettledTest(c) && FitsCond(h, c, k) && FitsLoop(h, base, ctx)
    requires t in h && h[t] == 0 && e in h && h[e] == 0
    ensures var s := LowerCond(c, t, e, ctx, k);
            && Held(s, h, {}) && (forall l :: l in h && h[l] >= 0 ==> Low(s, h, l))
            && (Branches(c) ==> Branched(s, |s|, e))
    decreases c, 3
  {
    hide Lower, Labels, CondLabels, WellFormed, Fits, Height, CondHeight, Held, Settled;
    if c.And? || c.Or? {
      PairHeld(c, t, e, ctx, k, h, base);
    } else if Tested(c) {
      TestedShape(c, t, e, ctx, k);
      TestedFits(h, c, k);
      NodeHeld(c, false, ctx, k, h, base);
      var v, b := Lower(c, false, ctx, k), [I(BranchUnless(e)), I(Jump(t))];
      HeldFlat(b, h);
      HeldThen(v, b, h);
      var s := v + b;
      assert s[|v|] == b[0] && s[|v| + 1] == b[1];
    } else {
      HeldFlat(LowerCond(c, t, e, ctx, k), h);
    }
  }

  lemma {:induction false} PairHeld(c: Node, t: nat, e: nat, ctx: Loop, k: nat, h: Heights, base: set<nat>)
    requires (c.And? || c.Or?) && WellFormed(c, ctx.InLoop?) && SettledTest(c) && FitsCond(h, c, k)
    requires FitsLoop(h, base, ctx) && t in h && h[t] == 0 && e in h && h[e] == 0
    ensures var s := LowerCond(c, t, e, ctx, k);
            && Held(s, h, {}) && (forall l :: l in h && h[l] >= 0 ==> Low(s, h, l))
            && (Branches(c) ==> Branched(s, |s|, e))
    decreases c, 2
  {
    hide Lower, LowerCond, Labels, CondLabels, WellFormed, FitsCond, Held, Settled;
    ShortParts(c, ctx.InLoop?);
    PairShape(c, t, e, ctx, k);
    PairFits(h, c, k);
    assert SettledTest(c.a) && SettledTest(c.b) by { if c.And? {} else {} }
    assert Branches(c) ==> Branches(c.b) || (c.And? && Branches(c.a)) by { if c.And? {} else {} }
    var t1, e1, m := First(c, t, true, k), First(c, e, false, k), k + 1 + CondLabels(c.a);
    var a, b := LowerCond(c.a, t1, e1, ctx, k + 1), LowerCond(c.b, t, e, ctx, m);
    TestHeld(c.a, t1, e1, ctx, k + 1, h, base);
    TestHeld(c.b, t, e, ctx, m, h, base);
    HeldFlat([L(k)], h);
    HeldThen([L(k)], b, h);
    HeldThen(a, [L(k)] + b, h);
    var s := a + ([L(k)] + b);
    assert s[|s| - 1] == b[|b| - 1];
    if Branches(c.b) {
      assert s == a + [L(k)] + b;
      BranchedRight(a + [L(k)], b, |b|, e);
    } else if Branches(c) {
      BranchedLeft(a, [L(k)] + b, |a|, |s|, e);
    }
  }

  lemma {:induction false} IfHeld(n: Node, poped: bool, ctx: Loop, k: nat, h: Heights, base: set<nat>)
    requires n.If? && WellFormed(n, ctx.InLoop?) && Settled(n, poped) && Fits(h, n, poped, k) && FitsLoop(h, base, ctx)
    ensures Held(Lower(n, poped, ctx, k), h, {})
    decreases n, 1
  {
    hide Lower, LowerCond, Labels, CondLabels, WellFormed, Fits, FitsCond, Held;
    IfParts(n, ctx.InLoop?);
    IfShape(n, poped, ctx, k);
    IfFits(h, n, poped, k);
    var k1 := k + 3 + CondLabels(n.cond);
    var k2 := k1 + Labels(n.body);
    var c0, c1, c2 := LowerCond(n.cond, k, k + 1, ctx, k + 3), Lower(n.body, poped, ctx, k1),
        Lower(n.els, poped, ctx, k2);
    var mid, open := [I(Jump(k + 2)), L(k + 1)], {k + 1};
    TestHeld(n.cond, k, k + 1, ctx, k + 3, h, base);
    NodeHeld(n.body, poped, ctx, k1, h, base);
    NodeHeld(n.els, poped, ctx, k2, h, base);
    if !poped { TidyTrees.PlainStart(n.els, false, ctx, k2); }
    hide Settled, SettledTest, TidyTrees.Plain, Branches;
    HeldFlat([L(k)], h);
    HeldFlat([L(k + 2)], h);
    var tail := c2 + [L(k + 2)];
    HeldThen(c2, [L(k + 2)], h);
    if poped {
      var rest := c1 + (mid + tail);
      assert Held(mid, h, {}) by { LowMid(k, h); }
      HeldThen(mid, tail, h);
      HeldThen(c1, mid + tail, h);
      HeldThen([L(k)], rest, h);
      HeldThen(c0, [L(k)] + rest, h);
    } else {
      ElseHeld(c0, c1, tail, k, h);
    }
  }

  lemma LowMid(k: nat, h: Heights)
    requires k + 1 in h && k + 2 in h && h[k + 2] <= h[k + 1]
    ensures Held([I(Jump(k + 2)), L(k + 1)], h, {})
  {
  }

  /** The label between the two parts is branched to in the test. */
  lemma ElseHeld(c0: Code, c1: Code, tail: Code, k: nat, h: Heights)
    requires Held(c0, h, {}) && Held(c1, h, {}) && Held(tail, h, {}) && TidyPieces.Solid(tail, 0)
    requires Branched(c0, |c0|, k + 1) && Low(c0, h, k) && !CutOff(c1, false, |c1|)
    ensures Held(c0 + ([L(k)] + (c1 + ([I(Jump(k + 2)), L(k + 1)] + tail))), h, {})
  {
    hide Held, Branched;
    var mid := [I(Jump(k + 2)), L(k + 1)];
    var front, rest := c0 + ([L(k)] + c1), mid + tail;
    HeldFlat([L(k)], h);
    HeldThen([L(k)], c1, h);
    HeldThen(c0, [L(k)] + c1, h);
    BranchedLeft(c0, [L(k)] + c1, |c0|, |front|, k + 1);
    MidHeld(tail, k, h);
    assert front == c0 + [L(k)] + c1;
    assert !CutOff(front, false, |front|);
    NoDrop(front, rest, h);
    HeldJoin(front, rest, h, {}, {k + 1});
    assert front + rest == c0 + ([L(k)] + (c1 + rest));
  }

  lemma MidHeld(tail: Code, k: nat, h: Heights)
    requires Held(tail, h, {}) && TidyPieces.Solid(tail, 0)
    ensures Held([I(Jump(k + 2)), L(k + 1)] + tail, h, {k + 1})
  {
    var mid := [I(Jump(k + 2)), L(k + 1)];
    var s := mid + tail;
    assert s[2] == tail[0];
    assert Held(mid + [tail[0]], h, {k + 1});
    forall q: nat | Drops(s, h, q) ensures TidyPieces.Solid(s, q + 1) && (s[q].l in {k + 1} || Branched(s, q, s[q].l)) {
      if q > 2 {
        assert s[q] == tail[q - 2] && s[q - 1] == tail[q - 3];
        assert Drops(tail, h, q - 2) && s[q + 1] == tail[q - 1];
        BranchedRight(mid, tail, q - 2, s[q].l);
      }
    }
  }

  lemma {:induction false} ShortHeld(n: Node, poped: bool, ctx: Loop, k: nat, h: Heights, base: set<nat>)
    requires (n.And? || n.Or?) && WellFormed(n, ctx.InLoop?) && Settled(n, poped)
    requires Fits(h, n, poped, k) && FitsLoop(h, base, ctx)
    ensures Held(Lower(n, poped, ctx, k), h, {})
    decreases n, 1
  {
    hide Lower, LowerCond, Labels, CondLabels, WellFormed, Fits, Held;
    ShortParts(n, ctx.InLoop?);
    ShortShape(n, poped, ctx, k);
    ShortFits(h, n, poped, k);
    assert Settled(n.a, false) && Settled(n.b, poped) by { if n.And? {} else {} }
    hide Settled;
    var k1, br := k + 1 + Labels(n.a), Around(n, k);
    var c1, c2 := Lower(n.a, false, ctx, k + 1), Lower(n.b, poped, ctx, k1);
    var x, y := Unless(poped, [I(Dup)]), Unless(poped, [I(Pop)]);
    NodeHeld(n.a, false, ctx, k + 1, h, base);
    NodeHeld(n.b, poped, ctx, k1, h, base);
    HeldFlat([L(k)], h);
    HeldThen(c2, [L(k)], h);
    HeldFlat(x + ([br] + y), h);
    HeldThen(x + ([br] + y), c2 + [L(k)], h);
    assert x + ([br] + y) + (c2 + [L(k)]) == Short(k, br, poped, c2);
    HeldThen(c1, Short(k, br, poped, c2), h);
  }

  lemma {:induction false} WhileHeld(n: Node, poped: bool, ctx: Loop, k: nat, h: Heights, base: set<nat>)
    requires n.While? && WellFormed(n, ctx.InLoop?) && Settled(n, poped)
    requires Fits(h, n, poped, k) && FitsLoop(h, base, ctx)
    ensures Held(Lower(n, poped, ctx, k), h, {})
    decreases n, 1
  {
    hide Lower, LowerCond, Labels, CondLabels, WellFormed, Fits, FitsCond, Held, LoopHead, LoopTail;
    WhileParts(n, ctx.InLoop?);
    WhileShape(n, poped, ctx, k);
    WhileFits(h, n, poped, k);
    var k1, inner, t, e := k + Own(n), Inside(k), Onward(n, k, true), Onward(n, k, false);
    var k2, in1 := k1 + Labels(n.body), base + {k + 1};
    var head, c1 := LoopHead(k, n.testFirst), Lower(n.body, true, inner, k1);
    var c2, tail := LowerCond(n.cond, t, e, inner, k2), LoopTail(k, poped);
    NodeHeld(n.body, true, inner, k1, h, in1);
    TestHeld(n.cond, t, e, inner, k2, h, in1);
    hide Settled, SettledTest;
    HeadHeld(k, n.testFirst, h);
    TailHeld(k, poped, h);
    HeldFlat([L(k)], h);
    HeldThen(c2, tail, h);
    HeldThen([L(k)], c2 + tail, h);
    HeldThen(c1, [L(k)] + (c2 + tail), h);
    HeldThen(head, c1 + ([L(k)] + (c2 + tail)), h);
  }

  lemma HeadHeld(k: nat, testFirst: bool, h: Heights)
    requires forall l: nat :: k <= l < k + (if testFirst then 5 else 6) ==>
             l in h && h[l] == if l == k + 2 || l == k + 4 then 1 else 0
    ensures var s := LoopHead(k, testFirst); Held(s, h, {}) && !CutOff(s, false, |s|)
  {
    var s := LoopHead(k, testFirst);
    assert s[|s| - 1] == L(k + 1);
    assert forall q: nat :: IsJump(s, q) ==> q == 0 || (q == 4 && s[4] == I(Jump(k)));
    assert s[1] == I(PutNil);
  }

  lemma TailHeld(k: nat, poped: bool, h: Heights)
    ensures var s := LoopTail(k, poped); Held(s, h, {}) && s != [] && s[0] == L(k + 3)
  {
    HeldFlat(LoopTail(k, poped), h);
  }

  lemma {:induction false} BreakHeld(n: Node, poped: bool, ctx: Loop, k: nat, h: Heights, base: set<nat>)
    requires n.Break? && WellFormed(n, ctx.InLoop?) && Settled(n, poped)
    requires Fits(h, n, poped, k) && FitsLoop(h, base, ctx)
    ensures Held(Lower(n, poped, ctx, k), h, {})
    decreases n, 1
  {
    hide Lower, LowerCond, Labels, CondLabels, WellFormed, Fits, Held;
    BreakParts(n, ctx.InLoop?);
    BreakShape(n, poped, ctx, k);
    BreakFits(h, n, poped, k);
    var in1 := base + {k};
    var a, c1 := [L(k), Adj(ctx.redo, true)], Lower(n.value, false, ctx, k + 1);
    var b := [I(Jump(ctx.brk)), Adj(k, false)] + Unless(poped, [I(PutNil)]);
    NodeHeld(n.value, false, ctx, k + 1, h, in1);
    HeldFlat(a, h);
    HeldFlat(b, h);
    HeldThen(c1, b, h);
    HeldThen(a, c1 + b, h);
  }

  // ----- leave and adjustments -----

  predicate Unbroken(n: Node) {
    match n
    case LAsgn(_, value) => Unbroken(value)
    case Block(head, next) => Unbroken(head) && Unbroken(next)
    case If(cond, body, els) => Unbroken(cond) && Unbroken(body) && Unbroken(els)
    case And(a, b) => Unbroken(a) && Unbroken(b)
    case Or(a, b) => Unbroken(a) && Unbroken(b)
    case While(cond, body, _, _) => Unbroken(cond) && Unbroken(body)
    case Break(_) => false
    case _ => true
  }

  /** No leave, and an adjustment only for a break. */
  ghost predicate Modest(c: Code, br: bool) {
    forall e :: e in c ==> e != I(Leave) && (e.Adj? ==> br)
  }

  lemma ModestJoin(a: Code, b: Code, br: bool)
    requires Modest(a, br) && Modest(b, br)
    ensures Modest(a + b, br)
  {
  }

  lemma {:induction false} NodeModest(n: Node, poped: bool, ctx: Loop, k: nat, br: bool)
    requires WellFormed(n, ctx.InLoop?) && (br || Unbroken(n))
    ensures Modest(Lower(n, poped, ctx, k), br)
    decreases n, 1
  {
    hide Lower, LowerCond, Labels, CondLabels, WellFormed, Modest, LoopHead, LoopTail;
    match n
    case LAsgn(i, value) =>
      AsgnParts(n, ctx.InLoop?);
      AsgnShape(n, poped, ctx, k);
      NodeModest(value, false, ctx, k, br);
      var b := Unless(poped, [I(Dup)]) + [I(SetLocal(i))];
      FlatModest(b, br);
      ModestJoin(Lower(value, false, ctx, k), b, br);
    case Block(head, next) =>
      BlockParts(n, ctx.InLoop?);
      BlockShape(n, poped, ctx, k);
      NodeModest(head, if next.Absent? then poped else true, ctx, k, br);
      if !next.Absent? {
        NodeModest(next, poped, ctx, k + Labels(head), br);
        ModestJoin(Lower(head, true, ctx, k), Lower(next, poped, ctx, k + Labels(head)), br);
      }
    case If(cond, body, els) =>
      IfParts(n, ctx.InLoop?);
      IfShape(n, poped, ctx, k);
      var k1 := k + 3 + CondLabels(cond);
      TestModest(cond, k, k + 1, ctx, k + 3, br);
      NodeModest(body, poped, ctx, k1, br);
      NodeModest(els, poped, ctx, k1 + Labels(body), br);
      var c1, c2 := Lower(body, poped, ctx, k1), Lower(els, poped, ctx, k1 + Labels(body));
      ModestFork(k, c1, c2, br);
      ModestJoin(LowerCond(cond, k, k + 1, ctx, k + 3), Fork(k, c1, c2), br);
    case And(_, _) => ShortModest(n, poped, ctx, k, br);
    case Or(_, _) => ShortModest(n, poped, ctx, k, br);
    case While(_, _, _, _) => WhileModest(n, poped, ctx, k, br);
    case Break(value) =>
      BreakParts(n, ctx.InLoop?);
      BreakShape(n, poped, ctx, k);
      NodeModest(value, false, ctx, k + 1, br);
      var a, b := [L(k), Adj(ctx.redo, true)], [I(Jump(ctx.brk)), Adj(k, false)] + Unless(poped, [I(PutNil)]);
      FlatModest(a, br);
      FlatModest(b, br);
      ModestJoin(Lower(value, false, ctx, k + 1), b, br);
      ModestJoin(a, Lower(value, false, ctx, k + 1) + b, br);
    case _ =>
      LeafShape(n, poped, ctx, k);
      FlatModest(Lower(n, poped, ctx, k), br);
  }

  lemma FlatModest(c: Code, br: bool)
    requires forall q :: 0 <= q < |c| ==> c[q] != I(Leave) && (c[q].Adj? ==> br)
    ensures Modest(c, br)
  {
  }

  lemma ModestFork(k: nat, c1: Code, c2: Code, br: bool)
    requires Modest(c1, br) && Modest(c2, br)
    ensures Modest(Fork(k, c1, c2), br)
  {
  }

  lemma {:induction false} ShortModest(n: Node, poped: bool, ctx: Loop, k: nat, br: bool)
    requires (n.And? || n.Or?) && WellFormed(n, ctx.InLoop?) && (br || Unbroken(n))
    ensures Modest(Lower(n, poped, ctx, k), br)
    decreases n, 0
  {
    hide Lower, LowerCond, Labels, CondLabels, WellFormed, Modest;
    ShortParts(n, ctx.InLoop?);
    ShortShape(n, poped, ctx, k);
    assert br || (Unbroken(n.a) && Unbroken(n.b)) by { if n.And? {} else {} }
    NodeModest(n.a, false, ctx, k + 1, br);
    NodeModest(n.b, poped, ctx, k + 1 + Labels(n.a), br);
    var c := Lower(n.b, poped, ctx, k + 1 + Labels(n.a));
    ModestEnd(k, Around(n, k), poped, c, br);
    ModestJoin(Lower(n.a, false, ctx, k + 1), Short(k, Around(n, k), poped, c), br);
  }

  lemma ModestEnd(k: nat, e: Elem, poped: bool, c: Code, br: bool)
    requires Modest(c, br) && e.I? && e != I(Leave)
    ensures Modest(Short(k, e, poped, c), br)
  {
  }

  lemma {:induction false} WhileModest(n: Node, poped: bool, ctx: Loop, k: nat, br: bool)
    requires n.While? && WellFormed(n, ctx.InLoop?) && (br || Unbroken(n))
    ensures Modest(Lower(n, poped, ctx, k), br)
    decreases n, 0
  {
    hide Lower, LowerCond, Labels, CondLabels, WellFormed, Modest, LoopHead, LoopTail;
    WhileParts(n, ctx.InLoop?);
    WhileShape(n, poped, ctx, k);
    var k1, inner, t, e := k + Own(n), Inside(k), Onward(n, k, true), Onward(n, k, false);
    var k2 := k1 + Labels(n.body);
    var head, c1 := LoopHead(k, n.testFirst), Lower(n.body, true, inner, k1);
    var c2, tail := LowerCond(n.cond, t, e, inner, k2), LoopTail(k, poped);
    NodeModest(n.body, true, inner, k1, br);
    TestModest(n.cond, t, e, inner, k2, br);
    LoopModest(k, n.testFirst, poped, br);
    ModestJoin(c2, tail, br);
    FlatModest([L(k)], br);
    ModestJoin([L(k)], c2 + tail, br);
    ModestJoin(c1, [L(k)] + (c2 + tail), br);
    ModestJoin(head, c1 + ([L(k)] + (c2 + tail)), br);
  }

  lemma LoopModest(k: nat, testFirst: bool, poped: bool, br: bool)
    ensures Modest(LoopHead(k, testFirst), br) && Modest(LoopTail(k, poped), br)
  {
  }

  lemma {:induction false} TestModest(c: Node, t: nat, e: nat, ctx: Loop, k: nat, br: bool)
    requires WellFormed(c, ctx.InLoop?) && (br || Unbroken(c))
    ensures Modest(LowerCond(c, t, e, ctx, k), br)
    decreases c, 2
  {
    hide Lower, LowerCond, Labels, CondLabels, WellFormed, Modest;
    if c.And? || c.Or? {
      ShortParts(c, ctx.InLoop?);
      PairShape(c, t, e, ctx, k);
      assert br || (Unbroken(c.a) && Unbroken(c.b)) by { if c.And? {} else {} }
      var t1, e1, m := First(c, t, true, k), First(c, e, false, k), k + 1 + CondLabels(c.a);
      TestModest(c.a, t1, e1, ctx, k + 1, br);
      TestModest(c.b, t, e, ctx, m, br);
      FlatModest([L(k)], br);
      ModestJoin([L(k)], LowerCond(c.b, t, e, ctx, m), br);
      ModestJoin(LowerCond(c.a, t1, e1, ctx, k + 1), [L(k)] + LowerCond(c.b, t, e, ctx, m), br);
    } else if Tested(c) {
      TestedShape(c, t, e, ctx, k);
      NodeModest(c, false, ctx, k, br);
      FlatModest([I(BranchUnless(e)), I(Jump(t))], br);
      ModestJoin(Lower(c, false, ctx, k), [I(BranchUnless(e)), I(Jump(t))], br);
    } else {
      TidyTrees.LiteralShape(c, t, e, ctx, k);
      FlatModest(LowerCond(c, t, e, ctx, k), br);
    }
  }

  // ----- through the pass -----

  /** A label met above its depth. */
  predicate Dropped(c: Code, h: Heights, q: nat) {
    q < |c| && c[q].L? && c[q].l in h && Deep(c, h, q) > h[c[q].l]
  }

  /** Every such label has a branch to it in front that no call leads on. */
  ghost predicate Secured(c: Code, h: Heights) {
    forall q: nat :: Dropped(c, h, q) ==> Branched(c, q, c[q].l) && NeatLists.Firm(c, c[q].l)
  }

  lemma SecuredRecalled(c: Code, h: Heights)
    requires Secured(c, h)
    ensures Recalled(c, h)
  {
    hide Real;
    forall q | 0 <= q < |c| && c[q].L? && c[q].l in h && Deep(c, h, q) > h[c[q].l]
      ensures JumpedTo(c, q, c[q].l)
    {
      assert Dropped(c, h, q);
      var r: nat :| r < q && IsBranch(c, r) && Target(c[r].insn) == Some(c[q].l);
      assert Refers(c, r, c[q].l);
    }
  }

  lemma CompiledSecured(n: Node)
    requires WellFormed(n, false) && Settled(n, false)
    ensures Secured(Compile(n), HeightsOf(n))
  {
    hide Lower, Labels, WellFormed, Height, HeightsOf, Settled, Held, Level, Real, NeatLists.Firm, NeatLists.Once;
    var c, h := Compile(n), HeightsOf(n);
    CompileLevel(n);
    TidyTrees.CompileOnce(n);
    HeightsFit(n);
    NodeHeld(n, false, NoLoop, 0, h, {});
    HeldFlat([I(Leave)], h);
    HeldThen(Lower(n, false, NoLoop, 0), [I(Leave)], h);
    NodeModest(n, false, NoLoop, 0, true);
    forall q: nat | Dropped(c, h, q) ensures Branched(c, q, c[q].l) && NeatLists.Firm(c, c[q].l) {
      assert forall j :: 0 <= j < q ==> c[j] in Lower(n, false, NoLoop, 0);
      DroppedDrops(c, h, q);
      HeldAt(c, h, q);
      assert TidyPieces.FirmIn(c, c[q].l);
      TidyTrees.FirmFind(c, c[q].l);
    }
  }

  lemma HeldAt(c: Code, h: Heights, q: nat)
    requires Held(c, h, {}) && Drops(c, h, q)
    ensures TidyPieces.Solid(c, q + 1) && Branched(c, q, c[q].l)
  {
  }

  /** In a list with one leave, at its end, a label met above its depth is behind a jump. */
  lemma DroppedDrops(c: Code, h: Heights, q: nat)
    requires Leveled(c, h) && Dropped(c, h, q) && (forall j :: 0 <= j < q ==> c[j] != I(Leave))
    ensures Drops(c, h, q)
  {
    hide Level, Real;
    LevelHere(c, h, q);
    LevelHere(c, h, q - 1);
  }

  lemma SecuredUpdate(c: Code, h: Heights, i: nat, e: Insn)
    requires Secured(c, h) && (IsJump(c, i) || IsBranch(c, i)) && (e.Jump? <==> IsJump(c, i)) && Target(e).Some?
    requires IsBranch(c, i) ==> forall q: nat :: Dropped(c, h, q) ==> Target(c[i].insn) != Some(c[q].l)
    ensures Secured(c[i := I(e)], h)
  {
    hide Real, NeatLists.Firm;
    var c' := c[i := I(e)];
    NeatLists.FirmUpdate(c, i, I(e));
    forall q: nat | Dropped(c', h, q) ensures Branched(c', q, c'[q].l) && NeatLists.Firm(c', c'[q].l) {
      DeepUpdate(c, h, i, I(e), q);
      assert Dropped(c, h, q);
      var r: nat :| r < q && IsBranch(c, r) && Target(c[r].insn) == Some(c[q].l);
      assert c'[r] == c[r];
    }
  }

  lemma SecuredRemove(c: Code, h: Heights, i: nat)
    requires Secured(c, h) && IsJump(c, i)
    ensures Secured(Remove(c, i), h)
  {
    hide Real, NeatLists.Firm;
    var c' := Remove(c, i);
    NeatLists.FirmRemove(c, i);
    forall q: nat | Dropped(c', h, q) ensures Branched(c', q, c'[q].l) && NeatLists.Firm(c', c'[q].l) {
      var p := if q < i then q else q + 1;
      DeepRemove(c, h, i, p);
      assert c'[q] == c[p];
      assert Dropped(c, h, p);
      var r: nat :| r < p && IsBranch(c, r) && Target(c[r].insn) == Some(c[p].l);
      assert c'[if r < i then r else r - 1] == c[r];
    }
  }

  lemma SecuredLeaving(c: Code, h: Heights, i: nat)
    requires Leveled(c, h) && Secured(c, h) && IsJump(c, i) && Deep(c, h, i) == 1
    ensures Secured(Leaving(c, i), h)
  {
    hide Level, Real, NeatLists.Firm;
    var c' := Leaving(c, i);
    NeatLists.FirmLeaving(c, i);
    forall q: nat | Dropped(c', h, q) ensures Branched(c', q, c'[q].l) && NeatLists.Firm(c', c'[q].l) {
      assert q < i || q > i + 1;
      var p := if q < i then q else q - 1;
      assert c'[q] == c[p];
      DeepLeaving(c, h, i, p);
      LevelHere(c, h, p);
      assert p != i + 1;
      assert Dropped(c, h, p);
      var r: nat :| r < p && IsBranch(c, r) && Target(c[r].insn) == Some(c[p].l);
      assert c'[if r < i then r else r + 1] == c[r];
    }
  }

  /** A branch merged with the jump behind it led right behind that, to a label at its depth. */
  lemma MergedNotDropped(c: Code, h: Heights, i: nat, p: nat, q: nat)
    requires Sealed(c) && Leveled(c, h) && NeatLists.Once(c) && IsJump(c, i) && Prev(c, i) == Some(p) && IsBranch(c, p)
    requires Next(c, i + 1) == Dest(c, Target(c[p].insn).value) && Dropped(c, h, q)
    ensures Target(c[p].insn) != Some(c[q].l)
  {
    hide Find, Dest, Next, Level, Sealed, Real, NeatLists.Once;
    var l := Target(c[p].insn).value;
    if l == c[q].l {
      BranchFound(c, p);
      BehindDeep(c, h, i, l);
      JumpDeep(c, h, i);
      LevelHere(c, h, p);
      RowDeep(c, h, p + 1, i);
      NeatLists.FindOnly(c, l, q);
      NeatLists.Landing(c, l);
      NextSkips(c, i + 1);
      assert i < q < Next(c, i + 1);
      LabelDeep(c, h, i + 1);
      if q > i + 1 { RowDeep(c, h, i + 2, q); }
      assert false;
    }
  }

  lemma LastRoundSecured(c: Code, h: Heights, i: nat)
    requires Sealed(c) && Leveled(c, h) && NeatLists.Once(c) && Secured(c, h) && IsJump(c, i)
    ensures Secured(LastRound(c, i).0, h)
  {
    hide Find, Dest, Next, Prev, Level, Sealed, Real, Secured, NeatLists.Once, NeatLists.Firm;
    var l := c[i].insn.l;
    match LastRound(c, i).1
    case Kept =>
    case Removed => SecuredRemove(c, h, i);
    case Left =>
      JumpPlaced(c, i);
      JumpDeep(c, h, i);
      LeadsDeep(c, h, l);
      LevelHere(c, h, Dest(c, l));
      SecuredLeaving(c, h, i);
    case Inverted =>
      var p := Prev(c, i).value;
      forall q: nat | Dropped(c, h, q) ensures Target(c[p].insn) != Some(c[q].l) { MergedNotDropped(c, h, i, p, q); }
      SecuredUpdate(c, h, p, Opposite(c[p].insn, l));
      SecuredRemove(Flipped(c, p, i), h, i);
  }

  lemma CalledSecured(c: Code, h: Heights, i: nat)
    requires Sealed(c) && Leveled(c, h) && NeatLists.Once(c) && Secured(c, h) && i < |c|
    ensures Secured(Called(c, i).0, h)
  {
    hide Find, Dest, Next, Settle, LastRound, Sealed, Real, Level, Secured, NeatLists.Once;
    if IsJump(c, i) {
      var r := Settle(c, i, c[i].insn.l, |c| + 1);
      JumpPlaced(c, i);
      JumpDeep(c, h, i);
      SettleDeep(c, h, i, c[i].insn.l, |c| + 1);
      LeveledUpdate(c, h, i, Jump(r));
      LedOnSealed(c, i);
      SecuredUpdate(c, h, i, Jump(r));
      NeatLists.OnceUpdate(c, i, I(Jump(r)));
      LastRoundSecured(LedOn(c, i), h, i);
    } else if IsBranch(c, i) {
      var d := Dest(c, Target(c[i].insn).value);
      if IsJump(c, d) {
        forall q: nat | Dropped(c, h, q) ensures Target(c[i].insn) != Some(c[q].l) { SecuredFirm(c, h, q); }
        SecuredUpdate(c, h, i, To(c[i].insn, c[d].insn.l));
      }
    }
  }

  lemma SecuredFirm(c: Code, h: Heights, q: nat)
    requires Secured(c, h) && Dropped(c, h, q)
    ensures !IsJump(c, Dest(c, c[q].l))
  {
    hide Dest, Real;
  }

  lemma {:induction false} PassSecured(c: Code, h: Heights, i: nat)
    requires Sealed(c) && Leveled(c, h) && NeatLists.Once(c) && Secured(c, h) && i <= |c|
    ensures Secured(PassFrom(c, i), h)
    decreases |c| - i
  {
    hide Sealed, Leveled, Secured, Called, NeatLists.Once;
    if i == |c| {
    } else if !c[i].I? {
      PassSecured(c, h, i + 1);
    } else {
      CalledSize(c, i);
      var (c1, kind) := Called(c, i);
      CalledSealed(c, i);
      CalledLevel(c, h, i);
      CalledOnce(c, i);
      CalledSecured(c, h, i);
      PassSecured(c1, h, OptimizePass.Behind(i, kind));
    }
  }

  // ----- what follows -----

  /** The depths linking records for the optimised list of a settled tree are the true ones. */
  lemma SettledExact(n: Node, q: nat)
    requires WellFormed(n, false) && Settled(n, false) && q <= |Rewritten(n)|
    ensures Depth(Rewritten(n), q).sp == Deep(Rewritten(n), HeightsOf(n), q)
    ensures Calm(Rewritten(n))
  {
    hide Compile, WellFormed, Settled, Sealed, Leveled, Secured, PassFrom, HeightsOf, NeatLists.Once, Depth, Deep;
    hide Downward, Recalled, Calm;
    RewrittenShape(n);
    CompileSealed(n);
    CompileLevel(n);
    TidyTrees.CompileOnce(n);
    CompiledSecured(n);
    PassSecured(Compile(n), HeightsOf(n), 0);
    SecuredRecalled(Rewritten(n), HeightsOf(n));
    AgreesExactly(Rewritten(n), HeightsOf(n));
    RecalledCalm(Rewritten(n), HeightsOf(n));
  }

  /** So a tidy and settled tree still works when its optimised list is linked. */
  lemma SettledRelinks(n: Node)
    requires WellFormed(n, false) && TidyTrees.Tidy(n) && Settled(n, false)
    ensures Relinks(n)
  {
    hide Compile, WellFormed, Settled, TidyTrees.Tidy, Clean, AllEnd, Calm, Rewritten, Depth, Deep, Relinks;
    TidyTrees.TidyPass(n);
    SettledExact(n, 0);
    CalmRelinks(n);
  }

  /** And in every state of the optimised list the stack is as deep as linking has recorded. */
  lemma SettledAgrees(n: Node, env: Env, m: nat, s: State)
    requires WellFormed(n, false) && Settled(n, false) && Steps(Rewritten(n), Start(env), m) == Some(s)
    ensures Agrees(Rewritten(n), s)
  {
    hide Compile, WellFormed, Settled, Sealed, Leveled, Rewritten, HeightsOf, NeatLists.Once, Depth, Deep, Calm;
    hide Downward, QuietRun, Steps;
    var c, h := Rewritten(n), HeightsOf(n);
    RewrittenShape(n);
    SettledExact(n, 0);
    CalmRun(c, Start(env));
    AtStart(c, h, env);
    Stays(c, h, Start(env), m, s);
    SettledExact(n, s.pc);
  }

  // ----- without break -----

  /** A call makes no adjustment. */
  lemma CalledElems(c: Code, i: nat)
    requires i < |c| && forall e :: e in c ==> !e.Adj?
    ensures forall e :: e in Called(c, i).0 ==> !e.Adj?
  {
    hide Dest, Next, Settle, Prev;
  }

  lemma {:induction false} PassElems(c: Code, i: nat)
    requires i <= |c| && forall e :: e in c ==> !e.Adj?
    ensures forall e :: e in PassFrom(c, i) ==> !e.Adj?
    decreases |c| - i
  {
    hide Called;
    if i == |c| {
    } else if !c[i].I? {
      PassElems(c, i + 1);
    } else {
      CalledSize(c, i);
      CalledElems(c, i);
      PassElems(Called(c, i).0, OptimizePass.Behind(i, Called(c, i).1));
    }
  }

  /** Without break there is nothing to adjust. */
  lemma UnbrokenRelinks(n: Node)
    requires WellFormed(n, false) && TidyTrees.Tidy(n) && Unbroken(n)
    ensures Relinks(n)
  {
    hide Lower, WellFormed, TidyTrees.Tidy, Clean, AllEnd, PassFrom, Depth, Unbroken, Relinks;
    TidyTrees.TidyPass(n);
    NodeModest(n, false, NoLoop, 0, false);
    PassElems(Compile(n), 0);
    var c := Rewritten(n);
    forall q | 0 <= q < |c| ensures !c[q].Adj? { assert c[q] in c; }
    CalmRelinks(n);
  }
}
