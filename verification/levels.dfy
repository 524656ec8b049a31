/** How deep the stack really is at every place of a compiled list. Linking records that depth while it walks
    the list; here it is said of the labels beforehand, so that it can be followed through rewriting. */
module Levels {
  import opened Nodes
  import opened Options
  import opened Lowering
  import opened Depths

  /** The depth at each label. */
  type Heights = map<nat, int>

  /** The depth behind an element met at depth sp. */
  function Past(e: Elem, h: Heights, sp: int): int {
    match e
    case I(i) => sp + Effect(i)
    case L(l) => if l in h then h[l] else sp
    case Adj(l, _) => if l in h then h[l] else sp
  }

  /** The depth at place q of a list entered at depth sp. */
  function Real(c: Code, h: Heights, sp: int, q: nat): int
    requires q <= |c|
    decreases q
  {
    if q == 0 then sp else Past(c[q - 1], h, Real(c, h, sp, q - 1))
  }

  /** How many values an instruction takes or looks at. */
  function Needs(i: Insn): int {
    match i
    case Pop => 1
    case Dup => 1
    case SetLocal(_) => 1
    case BranchIf(_) => 1
    case BranchUnless(_) => 1
    case Leave => 1
    case _ => 0
  }

  /** Control never goes on behind these. */
  predicate Ending(e: Elem) {
    e.I? && (e.insn.Jump? || e.insn.Leave?)
  }

  /** Whether what is at q can only be jumped to; back says so of the beginning. */
  predicate CutOff(c: Code, back: bool, q: nat)
    requires q <= |c|
  {
    if q == 0 then back else Ending(c[q - 1])
  }

  /** Label l is placed before q, or in front of the list. */
  predicate Known(c: Code, base: set<nat>, q: nat, l: nat)
    requires q <= |c|
  {
    l in base || exists r :: 0 <= r < q && c[r] == L(l)
  }

  /** What is at q says what the depth there is, and that is nothing. */
  predicate Ground(c: Code, h: Heights, q: nat) {
    q < |c| && (c[q].Adj? || (c[q].L? && c[q].l in h && h[c[q].l] == 0))
  }

  /** Element q finds what it takes, and jumps only to labels of the depth it leaves; leave finds one value.
      A label is met at its depth, or behind a jump at a greater one. A break starts at the ground, as every
      statement does, and behind a jump above it what follows is at the ground again. */
  predicate LevelAt(c: Code, h: Heights, base: set<nat>, sp: int, back: bool, q: nat)
    requires q < |c|
  {
    var d := Real(c, h, sp, q);
    match c[q]
    case I(i) =>
      && d >= Needs(i) && (i.Leave? ==> d == 1)
      && (Target(i).Some? ==> Target(i).value in h && h[Target(i).value] == d + Effect(i))
      && (i.Jump? && d > 0 ==> d == 1 && Ground(c, h, q + 1))
    case L(l) => l in h && 0 <= h[l] <= d && (h[l] == d || CutOff(c, back, q))
    case Adj(l, emits) => l in h && h[l] == 0 && Known(c, base, q, l) && (d == 0 || (!emits && CutOff(c, back, q)))
  }

  ghost predicate Level(c: Code, h: Heights, base: set<nat>, sp: int, back: bool) {
    forall q :: 0 <= q < |c| ==> LevelAt(c, h, base, sp, back, q)
  }

  /** The list is level, and leaves at this depth. */
  ghost predicate Runs(c: Code, h: Heights, base: set<nat>, sp: int, back: bool, sp': int, back': bool) {
    Level(c, h, base, sp, back) && Real(c, h, sp, |c|) == sp' && CutOff(c, back, |c|) == back'
  }

  // ----- pieces -----

  lemma {:induction false} RealLeft(a: Code, b: Code, h: Heights, sp: int, q: nat)
    requires q <= |a|
    ensures Real(a + b, h, sp, q) == Real(a, h, sp, q)
    decreases q
  {
    if q > 0 { RealLeft(a, b, h, sp, q - 1); }
  }

  lemma {:induction false} RealRight(a: Code, b: Code, h: Heights, sp: int, q: nat)
    requires q <= |b|
    ensures Real(a + b, h, sp, |a| + q) == Real(b, h, Real(a, h, sp, |a|), q)
    decreases q
  {
    if q == 0 { RealLeft(a, b, h, sp, |a|); } else { RealRight(a, b, h, sp, q - 1); }
  }

  /** One piece behind the other; labels placed in the first are known in the second. */
  lemma Join(a: Code, b: Code, h: Heights, base: set<nat>, base': set<nat>, sp: int, back: bool, sp1: int, back1: bool,
             sp2: int, back2: bool)
    requires Runs(a, h, base, sp, back, sp1, back1) && Runs(b, h, base', sp1, back1, sp2, back2)
    requires forall l :: l in base' ==> Known(a, base, |a|, l)
    ensures Runs(a + b, h, base, sp, back, sp2, back2)
  {
    hide Real, LevelAt;
    var c := a + b;
    RealRight(a, b, h, sp, |b|);
    forall q | 0 <= q < |c| ensures LevelAt(c, h, base, sp, back, q) {
      if q < |a| {
        RealLeft(a, b, h, sp, q);
        LevelLeft(a, b, h, base, sp, back, q);
      } else {
        RealRight(a, b, h, sp, q - |a|);
        LevelRight(a, b, h, base, base', sp, back, q);
      }
    }
  }

  lemma LevelLeft(a: Code, b: Code, h: Heights, base: set<nat>, sp: int, back: bool, q: nat)
    requires q < |a| && LevelAt(a, h, base, sp, back, q) && Real(a + b, h, sp, q) == Real(a, h, sp, q)
    ensures LevelAt(a + b, h, base, sp, back, q)
  {
    hide Real;
    var c := a + b;
    assert c[q] == a[q];
    if q > 0 { assert c[q - 1] == a[q - 1]; }
    if Ground(a, h, q + 1) { assert c[q + 1] == a[q + 1]; }
    if c[q].Adj? { KnownLeft(a, b, base, q, c[q].l); }
  }

  lemma KnownLeft(a: Code, b: Code, base: set<nat>, q: nat, l: nat)
    requires q <= |a| && Known(a, base, q, l)
    ensures Known(a + b, base, q, l)
  {
    if l !in base {
      var r :| 0 <= r < q && a[r] == L(l);
      assert (a + b)[r] == L(l);
    }
  }

  lemma LevelRight(a: Code, b: Code, h: Heights, base: set<nat>, base': set<nat>, sp: int, back: bool, q: nat)
    requires |a| <= q < |a| + |b|
    requires LevelAt(b, h, base', Real(a, h, sp, |a|), CutOff(a, back, |a|), q - |a|)
    requires Real(a + b, h, sp, q) == Real(b, h, Real(a, h, sp, |a|), q - |a|)
    requires forall l :: l in base' ==> Known(a, base, |a|, l)
    ensures LevelAt(a + b, h, base, sp, back, q)
  {
    hide Real;
    var c := a + b;
    assert c[q] == b[q - |a|];
    if q > |a| { assert c[q - 1] == b[q - |a| - 1]; } else if q > 0 { assert c[q - 1] == a[q - 1]; }
    if Ground(b, h, q + 1 - |a|) { assert c[q + 1] == b[q + 1 - |a|]; }
    if c[q].Adj? {
      var l := c[q].l;
      if l in base' {
        KnownLeft(a, b, base, |a|, l);
        KnownLonger(c, base, |a|, q, l);
      } else {
        var r :| 0 <= r < q - |a| && b[r] == L(l);
        assert c[r + |a|] == L(l);
      }
    }
  }

  lemma KnownLonger(c: Code, base: set<nat>, q: nat, q': nat, l: nat)
    requires q <= q' <= |c| && Known(c, base, q, l)
    ensures Known(c, base, q', l)
  {
    if l !in base { var r :| 0 <= r < q && c[r] == L(l); }
  }

  /** The usual case: nothing new is known. */
  lemma Then(a: Code, b: Code, h: Heights, base: set<nat>, sp: int, back: bool, sp1: int, back1: bool, sp2: int,
             back2: bool)
    requires Runs(a, h, base, sp, back, sp1, back1) && Runs(b, h, base, sp1, back1, sp2, back2)
    ensures Runs(a + b, h, base, sp, back, sp2, back2)
  {
    hide Runs;
    Join(a, b, h, base, base, sp, back, sp1, back1, sp2, back2);
  }

  lemma OneRuns(e: Elem, h: Heights, base: set<nat>, sp: int, back: bool)
    requires LevelAt([e], h, base, sp, back, 0)
    ensures Runs([e], h, base, sp, back, Past(e, h, sp), Ending(e))
  {
    hide LevelAt;
    assert Real([e], h, sp, 0) == sp;
  }

  lemma InsnRuns(i: Insn, h: Heights, base: set<nat>, sp: int, back: bool)
    requires sp >= Needs(i) && !i.Leave? && (i.Jump? ==> sp == 0)
    requires Target(i).Some? ==> Target(i).value in h && h[Target(i).value] == sp + Effect(i)
    ensures Runs([I(i)], h, base, sp, back, sp + Effect(i), i.Jump?)
  {
    OneRuns(I(i), h, base, sp, back);
  }

  lemma OptRuns(poped: bool, i: Insn, h: Heights, base: set<nat>, sp: int)
    requires sp >= Needs(i) && Target(i) == None && !i.Leave?
    ensures Runs(Unless(poped, [I(i)]), h, base, sp, false, sp + if poped then 0 else Effect(i), false)
  {
    if !poped { InsnRuns(i, h, base, sp, false); }
  }

  lemma NoneRuns(h: Heights, base: set<nat>, sp: int)
    ensures Runs([], h, base, sp, false, sp, false)
  {
  }

  lemma LabelRuns(l: nat, h: Heights, base: set<nat>, sp: int, back: bool)
    requires l in h && 0 <= h[l] <= sp && (h[l] == sp || back)
    ensures Runs([L(l)], h, base, sp, back, h[l], false)
  {
    OneRuns(L(l), h, base, sp, back);
  }

  lemma AdjRuns(l: nat, emits: bool, h: Heights, base: set<nat>, sp: int, back: bool)
    requires l in h && h[l] == 0 && l in base && (sp == 0 || (!emits && back))
    ensures Runs([Adj(l, emits)], h, base, sp, back, 0, false)
  {
    OneRuns(Adj(l, emits), h, base, sp, back);
  }

  /** A jump with what follows it at the ground. */
  lemma JumpRuns(x: nat, e: Elem, h: Heights, base: set<nat>, sp: int, back: bool)
    requires 0 <= sp <= 1 && x in h && h[x] == sp
    requires (e.L? && e.l in h && h[e.l] == 0) || (e.Adj? && e.l in base && e.l in h && h[e.l] == 0 && !e.emits)
    ensures Runs([I(Jump(x)), e], h, base, sp, back, 0, false)
  {
    var c := [I(Jump(x)), e];
    assert Real(c, h, sp, 0) == sp && Real(c, h, sp, 1) == sp;
    assert Real(c, h, sp, 2) == 0;
    if e.Adj? { assert Known(c, base, 1, e.l); }
  }

  // ----- the depth at each label of a node -----

  function Height(n: Node, poped: bool, k: nat, l: nat): int
    decreases n, 1
  {
    match n
    case LAsgn(_, value) => Height(value, false, k, l)
    case Block(head, next) =>
      if next.Absent? then Height(head, poped, k, l)
      else if l < k + Labels(head) then Height(head, true, k, l)
      else Height(next, poped, k + Labels(head), l)
    case If(cond, body, els) =>
      var k1 := k + 3 + CondLabels(cond);
      if l < k + 3 then (if l == k + 2 then Left(poped) else 0)
      else if l < k1 then CondHeight(cond, k + 3, l)
      else if l < k1 + Labels(body) then Height(body, poped, k1, l)
      else Height(els, poped, k1 + Labels(body), l)
    case And(a, b) => ShortHeight(n, poped, k, l)
    case Or(a, b) => ShortHeight(n, poped, k, l)
    case While(cond, body, _, _) =>
      var k1 := k + Own(n);
      if l < k1 then (if l == k + 2 || l == k + 4 then 1 else 0)
      else if l < k1 + Labels(body) then Height(body, true, k1, l)
      else CondHeight(cond, k1 + Labels(body), l)
    case Break(value) => if l <= k then 0 else Height(value, false, k + 1, l)
    case _ => 0
  }

  function ShortHeight(n: Node, poped: bool, k: nat, l: nat): int
    requires n.And? || n.Or?
    decreases n, 0
  {
    if l <= k then Left(poped)
    else if l < k + 1 + Labels(n.a) then Height(n.a, false, k + 1, l)
    else Height(n.b, poped, k + 1 + Labels(n.a), l)
  }

  function CondHeight(c: Node, k: nat, l: nat): int
    decreases c, 2
  {
    if c.And? || c.Or? then
      if l <= k then 0
      else if l < k + 1 + CondLabels(c.a) then CondHeight(c.a, k + 1, l)
      else CondHeight(c.b, k + 1 + CondLabels(c.a), l)
    else Height(c, false, k, l)
  }

  /** The node's own labels have these depths. */
  ghost predicate Fits(h: Heights, n: Node, poped: bool, k: nat) {
    forall l: nat :: k <= l < k + Labels(n) ==> l in h && h[l] == Height(n, poped, k, l)
  }

  ghost predicate FitsCond(h: Heights, c: Node, k: nat) {
    forall l: nat :: k <= l < k + CondLabels(c) ==> l in h && h[l] == CondHeight(c, k, l)
  }

  /** What is known of the enclosing loop's labels. */
  ghost predicate FitsLoop(h: Heights, base: set<nat>, ctx: Loop) {
    ctx.InLoop? ==> ctx.redo in h && h[ctx.redo] == 0 && ctx.redo in base && ctx.brk in h && h[ctx.brk] == 1
  }

  lemma IfFits(h: Heights, n: Node, poped: bool, k: nat)
    requires n.If? && Fits(h, n, poped, k) && Labels(n) == 3 + CondLabels(n.cond) + Labels(n.body) + Labels(n.els)
    ensures k in h && h[k] == 0 && k + 1 in h && h[k + 1] == 0 && k + 2 in h && h[k + 2] == Left(poped)
    ensures var k1 := k + 3 + CondLabels(n.cond);
            FitsCond(h, n.cond, k + 3) && Fits(h, n.body, poped, k1) && Fits(h, n.els, poped, k1 + Labels(n.body))
  {
    hide CondHeight, Labels, CondLabels;
    assert forall l: nat :: k <= l < k + Labels(n) ==> l in h && h[l] == Height(n, poped, k, l);
  }

  lemma ShortFits(h: Heights, n: Node, poped: bool, k: nat)
    requires (n.And? || n.Or?) && Fits(h, n, poped, k) && Labels(n) == 1 + Labels(n.a) + Labels(n.b)
    ensures k in h && h[k] == Left(poped) && Fits(h, n.a, false, k + 1) && Fits(h, n.b, poped, k + 1 + Labels(n.a))
  {
    hide CondHeight, Labels, CondLabels;
    forall l: nat | k <= l < k + Labels(n) ensures l in h && h[l] == ShortHeight(n, poped, k, l) {
      assert h[l] == Height(n, poped, k, l);
      if n.And? {} else {}
    }
  }

  lemma PairFits(h: Heights, c: Node, k: nat)
    requires (c.And? || c.Or?) && FitsCond(h, c, k) && CondLabels(c) == 1 + CondLabels(c.a) + CondLabels(c.b)
    ensures k in h && h[k] == 0 && FitsCond(h, c.a, k + 1) && FitsCond(h, c.b, k + 1 + CondLabels(c.a))
  {
    hide Height, Labels, CondLabels;
  }

  lemma WhileFits(h: Heights, n: Node, poped: bool, k: nat)
    requires n.While? && Fits(h, n, poped, k) && Labels(n) == Own(n) + Labels(n.body) + CondLabels(n.cond)
    ensures forall l: nat :: k <= l < k + Own(n) ==> l in h && h[l] == if l == k + 2 || l == k + 4 then 1 else 0
    ensures Fits(h, n.body, true, k + Own(n)) && FitsCond(h, n.cond, k + Own(n) + Labels(n.body))
  {
    hide CondHeight, Labels, CondLabels;
  }

  lemma BreakFits(h: Heights, n: Node, poped: bool, k: nat)
    requires n.Break? && Fits(h, n, poped, k) && Labels(n) == 1 + Labels(n.value)
    ensures k in h && h[k] == 0 && Fits(h, n.value, false, k + 1)
  {
    hide CondHeight, Labels, CondLabels;
  }

  lemma BlockFits(h: Heights, n: Node, poped: bool, k: nat)
    requires n.Block? && Fits(h, n, poped, k) && Labels(n) == Labels(n.head) + Labels(n.next)
    ensures if n.next.Absent? then Fits(h, n.head, poped, k)
            else Fits(h, n.head, true, k) && Fits(h, n.next, poped, k + Labels(n.head))
  {
    hide CondHeight, Labels, CondLabels;
  }

  // ----- compiled code is level -----

  /** The code of a node is level from the ground on, and ends as high as the value it leaves. */
  lemma {:induction false} NodeRuns(n: Node, poped: bool, ctx: Loop, k: nat, h: Heights, base: set<nat>)
    requires WellFormed(n, ctx.InLoop?) && Fits(h, n, poped, k) && FitsLoop(h, base, ctx)
    ensures Runs(Lower(n, poped, ctx, k), h, base, 0, false, Left(poped), false)
    decreases n, 1
  {
    hide Lower, LowerCond, Labels, CondLabels, WellFormed, Runs, Fits, Height;
    match n
    case LAsgn(i, value) =>
      AsgnParts(n, ctx.InLoop?);
      AsgnShape(n, poped, ctx, k);
      assert Fits(h, value, false, k) by { AsgnFits(h, n, poped, k); }
      NodeRuns(value, false, ctx, k, h, base);
      OptRuns(poped, Dup, h, base, 1);
      InsnRuns(SetLocal(i), h, base, if poped then 1 else 2, false);
      var a, b := Unless(poped, [I(Dup)]), [I(SetLocal(i))];
      Then(a, b, h, base, 1, false, if poped then 1 else 2, false, Left(poped), false);
      Then(Lower(value, false, ctx, k), a + b, h, base, 0, false, 1, false, Left(poped), false);
    case Block(_, _) => BlockRuns(n, poped, ctx, k, h, base);
    case If(_, _, _) => IfRuns(n, poped, ctx, k, h, base);
    case And(_, _) => ShortRuns(n, poped, ctx, k, h, base);
    case Or(_, _) => ShortRuns(n, poped, ctx, k, h, base);
    case While(_, _, _, _) => WhileRuns(n, poped, ctx, k, h, base);
    case Break(_) => BreakRuns(n, poped, ctx, k, h, base);
    case _ =>
      LeafShape(n, poped, ctx, k);
      OptRuns(poped, Leaf(n), h, base, 0);
  }

  lemma AsgnFits(h: Heights, n: Node, poped: bool, k: nat)
    requires n.LAsgn? && Fits(h, n, poped, k) && Labels(n) == Labels(n.value)
    ensures Fits(h, n.value, false, k)
  {
    hide CondHeight, Labels, CondLabels;
  }

  lemma {:induction false} BlockRuns(n: Node, poped: bool, ctx: Loop, k: nat, h: Heights, base: set<nat>)
    requires n.Block? && WellFormed(n, ctx.InLoop?) && Fits(h, n, poped, k) && FitsLoop(h, base, ctx)
    ensures Runs(Lower(n, poped, ctx, k), h, base, 0, false, Left(poped), false)
    decreases n, 0
  {
    hide Lower, LowerCond, Labels, CondLabels, WellFormed, Runs, Fits;
    BlockParts(n, ctx.InLoop?);
    BlockShape(n, poped, ctx, k);
    BlockFits(h, n, poped, k);
    if n.next.Absent? {
      NodeRuns(n.head, poped, ctx, k, h, base);
    } else {
      NodeRuns(n.head, true, ctx, k, h, base);
      NodeRuns(n.next, poped, ctx, k + Labels(n.head), h, base);
      Then(Lower(n.head, true, ctx, k), Lower(n.next, poped, ctx, k + Labels(n.head)), h, base, 0, false, 0, false,
           Left(poped), false);
    }
  }

  lemma {:induction false} TestRuns(c: Node, t: nat, e: nat, ctx: Loop, k: nat, h: Heights, base: set<nat>)
    requires WellFormed(c, ctx.InLoop?) && FitsCond(h, c, k) && FitsLoop(h, base, ctx)
    requires t in h && h[t] == 0 && e in h && h[e] == 0
    ensures Runs(LowerCond(c, t, e, ctx, k), h, base, 0, false, 0, true)
    decreases c, 2
  {
    hide Lower, Labels, WellFormed, Runs, Fits;
    if c.And? || c.Or? {
      PairRuns(c, t, e, ctx, k, h, base);
    } else if Tested(c) {
      TestedShape(c, t, e, ctx, k);
      TestedFits(h, c, k);
      NodeRuns(c, false, ctx, k, h, base);
      InsnRuns(BranchUnless(e), h, base, 1, false);
      InsnRuns(Jump(t), h, base, 0, false);
      var v, a, b := Lower(c, false, ctx, k), [I(BranchUnless(e))], [I(Jump(t))];
      Then(a, b, h, base, 1, false, 0, false, 0, true);
      Then(v, a + b, h, base, 0, false, 1, false, 0, true);
      assert a + b == [I(BranchUnless(e)), I(Jump(t))];
    } else {
      var x := if c.Lit? || c.TrueLit? then t else e;
      InsnRuns(Jump(x), h, base, 0, false);
    }
  }

  lemma TestedFits(h: Heights, c: Node, k: nat)
    requires FitsCond(h, c, k) && !c.And? && !c.Or? && CondLabels(c) == Labels(c)
    ensures Fits(h, c, false, k)
  {
    hide Height, Labels, CondLabels;
  }

  lemma {:induction false} PairRuns(c: Node, t: nat, e: nat, ctx: Loop, k: nat, h: Heights, base: set<nat>)
    requires (c.And? || c.Or?) && WellFormed(c, ctx.InLoop?) && FitsCond(h, c, k) && FitsLoop(h, base, ctx)
    requires t in h && h[t] == 0 && e in h && h[e] == 0
    ensures Runs(LowerCond(c, t, e, ctx, k), h, base, 0, false, 0, true)
    decreases c, 1
  {
    hide Lower, LowerCond, Labels, CondLabels, WellFormed, Runs, FitsCond;
    ShortParts(c, ctx.InLoop?);
    PairShape(c, t, e, ctx, k);
    PairFits(h, c, k);
    var t1, e1, m := First(c, t, true, k), First(c, e, false, k), k + 1 + CondLabels(c.a);
    TestRuns(c.a, t1, e1, ctx, k + 1, h, base);
    TestRuns(c.b, t, e, ctx, m, h, base);
    LabelRuns(k, h, base, 0, true);
    Then([L(k)], LowerCond(c.b, t, e, ctx, m), h, base, 0, true, 0, false, 0, true);
    Then(LowerCond(c.a, t1, e1, ctx, k + 1), [L(k)] + LowerCond(c.b, t, e, ctx, m), h, base, 0, false, 0, true, 0,
         true);
  }

  lemma {:induction false} IfRuns(n: Node, poped: bool, ctx: Loop, k: nat, h: Heights, base: set<nat>)
    requires n.If? && WellFormed(n, ctx.InLoop?) && Fits(h, n, poped, k) && FitsLoop(h, base, ctx)
    ensures Runs(Lower(n, poped, ctx, k), h, base, 0, false, Left(poped), false)
    decreases n, 0
  {
    hide Lower, LowerCond, Labels, CondLabels, WellFormed, Runs, Fits, FitsCond;
    IfParts(n, ctx.InLoop?);
    IfShape(n, poped, ctx, k);
    IfFits(h, n, poped, k);
    var k1, v := k + 3 + CondLabels(n.cond), Left(poped);
    var k2 := k1 + Labels(n.body);
    var c0, c1, c2 := LowerCond(n.cond, k, k + 1, ctx, k + 3), Lower(n.body, poped, ctx, k1),
        Lower(n.els, poped, ctx, k2);
    var mid := [I(Jump(k + 2)), L(k + 1)];
    TestRuns(n.cond, k, k + 1, ctx, k + 3, h, base);
    NodeRuns(n.body, poped, ctx, k1, h, base);
    NodeRuns(n.els, poped, ctx, k2, h, base);
    LabelRuns(k, h, base, 0, true);
    JumpRuns(k + 2, L(k + 1), h, base, v, false);
    LabelRuns(k + 2, h, base, v, false);
    Then(c2, [L(k + 2)], h, base, 0, false, v, false, v, false);
    Then(mid, c2 + [L(k + 2)], h, base, v, false, 0, false, v, false);
    Then(c1, mid + (c2 + [L(k + 2)]), h, base, 0, false, v, false, v, false);
    Then([L(k)], c1 + (mid + (c2 + [L(k + 2)])), h, base, 0, true, 0, false, v, false);
    Then(c0, Fork(k, c1, c2), h, base, 0, false, 0, true, v, false);
  }

  lemma {:induction false} ShortRuns(n: Node, poped: bool, ctx: Loop, k: nat, h: Heights, base: set<nat>)
    requires (n.And? || n.Or?) && WellFormed(n, ctx.InLoop?) && Fits(h, n, poped, k) && FitsLoop(h, base, ctx)
    ensures Runs(Lower(n, poped, ctx, k), h, base, 0, false, Left(poped), false)
    decreases n, 0
  {
    hide Lower, LowerCond, Labels, CondLabels, WellFormed, Runs, Fits;
    ShortParts(n, ctx.InLoop?);
    ShortShape(n, poped, ctx, k);
    ShortFits(h, n, poped, k);
    var k1, br, v := k + 1 + Labels(n.a), Around(n, k), Left(poped);
    var c1, c2 := Lower(n.a, false, ctx, k + 1), Lower(n.b, poped, ctx, k1);
    var x, y := Unless(poped, [I(Dup)]), Unless(poped, [I(Pop)]);
    NodeRuns(n.a, false, ctx, k + 1, h, base);
    NodeRuns(n.b, poped, ctx, k1, h, base);
    OptRuns(poped, Dup, h, base, 1);
    InsnRuns(br.insn, h, base, 1 + v, false);
    if !poped { OptRuns(poped, Pop, h, base, v); } else { NoneRuns(h, base, v); }
    LabelRuns(k, h, base, v, false);
    Then(c2, [L(k)], h, base, 0, false, v, false, v, false);
    Then(y, c2 + [L(k)], h, base, v, false, 0, false, v, false);
    Then([br], y + (c2 + [L(k)]), h, base, 1 + v, false, v, false, v, false);
    Then(x, [br] + (y + (c2 + [L(k)])), h, base, 1, false, 1 + v, false, v, false);
    Then(c1, Short(k, br, poped, c2), h, base, 0, false, 1, false, v, false);
  }

  lemma HeadRuns(k: nat, testFirst: bool, h: Heights, base: set<nat>)
    requires forall l: nat :: k <= l < k + (if testFirst then 5 else 6) ==>
             l in h && h[l] == if l == k + 2 || l == k + 4 then 1 else 0
    ensures Runs(LoopHead(k, testFirst), h, base, 0, false, 0, false)
    ensures Known(LoopHead(k, testFirst), base, |LoopHead(k, testFirst)|, k + 1)
  {
    var x, d := if testFirst then k else k + 5, Unless(testFirst, [L(k + 5)]);
    var head := LoopHead(k, testFirst);
    assert head[|head| - 1] == L(k + 1);
    assert head == [I(Jump(x))] + ([I(PutNil)] + ([L(k + 4)] + ([I(Pop)] + ([I(Jump(k))] + (d + [L(k + 1)])))));
    hide Runs;
    InsnRuns(Jump(x), h, base, 0, false);
    InsnRuns(PutNil, h, base, 0, true);
    LabelRuns(k + 4, h, base, 1, false);
    InsnRuns(Pop, h, base, 1, false);
    InsnRuns(Jump(k), h, base, 0, false);
    if testFirst {
      assert d + [L(k + 1)] == [L(k + 1)];
      LabelRuns(k + 1, h, base, 0, true);
    } else {
      LabelRuns(k + 5, h, base, 0, true);
      LabelRuns(k + 1, h, base, 0, false);
      Then(d, [L(k + 1)], h, base, 0, true, 0, false, 0, false);
    }
    Then([I(Jump(k))], d + [L(k + 1)], h, base, 0, false, 0, true, 0, false);
    Then([I(Pop)], [I(Jump(k))] + (d + [L(k + 1)]), h, base, 1, false, 0, false, 0, false);
    Then([L(k + 4)], [I(Pop)] + ([I(Jump(k))] + (d + [L(k + 1)])), h, base, 1, false, 1, false, 0, false);
    Then([I(PutNil)], [L(k + 4)] + ([I(Pop)] + ([I(Jump(k))] + (d + [L(k + 1)]))), h, base, 0, true, 1, false, 0,
         false);
    Then([I(Jump(x))], [I(PutNil)] + ([L(k + 4)] + ([I(Pop)] + ([I(Jump(k))] + (d + [L(k + 1)])))), h, base, 0, false,
         0,
         true, 0, false);
  }

  lemma TailRuns(k: nat, poped: bool, h: Heights, base: set<nat>)
    requires k + 2 in h && h[k + 2] == 1 && k + 3 in h && h[k + 3] == 0
    ensures Runs(LoopTail(k, poped), h, base, 0, true, Left(poped), false)
  {
    hide Runs;
    var c := Unless(!poped, [I(Pop)]);
    assert LoopTail(k, poped) == [L(k + 3)] + ([I(PutNil)] + ([L(k + 2)] + c));
    LabelRuns(k + 3, h, base, 0, true);
    InsnRuns(PutNil, h, base, 0, false);
    LabelRuns(k + 2, h, base, 1, false);
    OptRuns(!poped, Pop, h, base, 1);
    Then([L(k + 2)], c, h, base, 1, false, 1, false, Left(poped), false);
    Then([I(PutNil)], [L(k + 2)] + c, h, base, 0, false, 1, false, Left(poped), false);
    Then([L(k + 3)], [I(PutNil)] + ([L(k + 2)] + c), h, base, 0, true, 0, false, Left(poped), false);
  }

  lemma {:induction false} WhileRuns(n: Node, poped: bool, ctx: Loop, k: nat, h: Heights, base: set<nat>)
    requires n.While? && WellFormed(n, ctx.InLoop?) && Fits(h, n, poped, k) && FitsLoop(h, base, ctx)
    ensures Runs(Lower(n, poped, ctx, k), h, base, 0, false, Left(poped), false)
    decreases n, 0
  {
    hide Lower, LowerCond, Labels, CondLabels, WellFormed, Runs, Fits, FitsCond, LoopHead, LoopTail;
    WhileParts(n, ctx.InLoop?);
    WhileShape(n, poped, ctx, k);
    WhileFits(h, n, poped, k);
    var k1, inner, t, e, v := k + Own(n), Inside(k), Onward(n, k, true), Onward(n, k, false), Left(poped);
    var k2, in1 := k1 + Labels(n.body), base + {k + 1};
    var head, c1 := LoopHead(k, n.testFirst), Lower(n.body, true, inner, k1);
    var c2, tail := LowerCond(n.cond, t, e, inner, k2), LoopTail(k, poped);
    HeadRuns(k, n.testFirst, h, base);
    NodeRuns(n.body, true, inner, k1, h, in1);
    LabelRuns(k, h, in1, 0, false);
    TestRuns(n.cond, t, e, inner, k2, h, in1);
    TailRuns(k, poped, h, in1);
    Then(c2, tail, h, in1, 0, false, 0, true, v, false);
    Then([L(k)], c2 + tail, h, in1, 0, false, 0, false, v, false);
    Then(c1, [L(k)] + (c2 + tail), h, in1, 0, false, 0, false, v, false);
    Join(head, c1 + ([L(k)] + (c2 + tail)), h, base, in1, 0, false, 0, false, v, false);
  }

  lemma {:induction false} BreakRuns(n: Node, poped: bool, ctx: Loop, k: nat, h: Heights, base: set<nat>)
    requires n.Break? && WellFormed(n, ctx.InLoop?) && Fits(h, n, poped, k) && FitsLoop(h, base, ctx)
    ensures Runs(Lower(n, poped, ctx, k), h, base, 0, false, Left(poped), false)
    decreases n, 0
  {
    hide Lower, LowerCond, Labels, CondLabels, WellFormed, Runs, Fits;
    BreakParts(n, ctx.InLoop?);
    BreakShape(n, poped, ctx, k);
    BreakFits(h, n, poped, k);
    var in1, v := base + {k}, Left(poped);
    var c1, tail, last := Lower(n.value, false, ctx, k + 1), [I(Jump(ctx.brk)), Adj(k, false)],
        Unless(poped, [I(PutNil)]);
    LabelRuns(k, h, base, 0, false);
    AdjRuns(ctx.redo, true, h, in1, 0, false);
    NodeRuns(n.value, false, ctx, k + 1, h, in1);
    JumpRuns(ctx.brk, Adj(k, false), h, in1, 1, false);
    OptRuns(poped, PutNil, h, in1, 0);
    Then(tail, last, h, in1, 1, false, 0, false, v, false);
    Then(c1, tail + last, h, in1, 0, false, 1, false, v, false);
    Then([Adj(ctx.redo, true)], c1 + (tail + last), h, in1, 0, false, 0, false, v, false);
    assert Known([L(k)], base, 1, k) by { assert [L(k)][0] == L(k); }
    Join([L(k)], [Adj(ctx.redo, true)] + (c1 + (tail + last)), h, base, in1, 0, false, 0, false, v, false);
    assert [L(k)] + ([Adj(ctx.redo, true)] + (c1 + (tail + last)))
        == [L(k), Adj(ctx.redo, true)] + (c1 + (tail + last));
  }

  // ----- whole programs -----

  /** A whole list is level. */
  ghost predicate Leveled(c: Code, h: Heights) {
    Level(c, h, {}, 0, false)
  }

  function Deep(c: Code, h: Heights, q: nat): int
    requires q <= |c|
  {
    Real(c, h, 0, q)
  }

  /** The depths at the labels of a program. */
  function HeightsOf(n: Node): Heights {
    map l: nat | l < Labels(n) :: Height(n, false, 0, l)
  }

  lemma LeaveRuns(h: Heights)
    ensures Runs([I(Leave)], h, {}, 1, false, 1, true)
  {
    OneRuns(I(Leave), h, {}, 1, false);
  }

  lemma HeightsFit(n: Node)
    ensures Fits(HeightsOf(n), n, false, 0)
  {
    hide Height, Labels;
  }

  /** Every compiled program is level. */
  lemma CompileLevel(n: Node)
    requires WellFormed(n, false)
    ensures Leveled(Compile(n), HeightsOf(n))
  {
    hide Lower, Labels, WellFormed, Height, HeightsOf, Fits, Level, Real, CutOff;
    var h := HeightsOf(n);
    HeightsFit(n);
    NodeRuns(n, false, NoLoop, 0, h, {});
    LeaveRuns(h);
    Then(Lower(n, false, NoLoop, 0), [I(Leave)], h, {}, 0, false, 1, false, 1, true);
  }
}
