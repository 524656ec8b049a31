/** The stack depth that linking records while it walks an element list. */
module Depths {
  import opened Nodes
  import opened Options
  import opened Lowering

  /** The depth reached so far and the depth recorded for each label met or referred to. */
  datatype Rec = Rec(sp: int, sps: map<nat, int>)

  /** calc_sp_depth */
  function Effect(i: Insn): int {
    match i
    case PutNil => 1
    case PutObject(_) => 1
    case Pop => -1
    case Dup => 1
    case GetLocal(_) => 1
    case SetLocal(_) => -1
    case Jump(_) => 0
    case BranchIf(_) => -1
    case BranchUnless(_) => -1
    case Leave => 0
  }

  /** A label takes the depth of whatever meets it first, a reference or its own place; where it
      already has one, the walk goes on from that depth. */
  function Record(e: Elem, r: Rec): Rec {
    match e
    case I(i) =>
      var sp := r.sp + Effect(i);
      var t := Target(i);
      Rec(sp, if t.Some? && t.value !in r.sps then r.sps[t.value := sp] else r.sps)
    case L(l) => if l in r.sps then Rec(r.sps[l], r.sps) else Rec(r.sp, r.sps[l := r.sp])
    case Adj(l, _) => Rec(if l in r.sps then r.sps[l] else -1, r.sps)
  }

  function Fold(c: Code, r: Rec): Rec
    decreases |c|
  {
    if c == [] then r else Fold(c[1..], Record(c[0], r))
  }

  /** No adjustment is ever asked to grow the stack: the "adjust bug" case does not occur. */
  predicate AdjustsDown(c: Code, r: Rec)
    decreases |c|
  {
    c != [] ==>
      && (c[0].Adj? && c[0].emits ==> c[0].l in r.sps && 0 <= r.sps[c[0].l] <= r.sp)
      && AdjustsDown(c[1..], Record(c[0], r))
  }

  lemma {:induction false} Chain(a: Code, b: Code, r: Rec)
    ensures Fold(a + b, r) == Fold(b, Fold(a, r))
    ensures AdjustsDown(a + b, r) <==> AdjustsDown(a, r) && AdjustsDown(b, Fold(a, r))
    decreases |a|
  {
    if a == [] {
      assert a + b == b;
    } else {
      assert (a + b)[1..] == a[1..] + b;
      Chain(a[1..], b, Record(a[0], r));
    }
  }

  /** A label either has this depth or none yet. */
  ghost predicate At(r: Rec, l: nat, sp: int) {
    l in r.sps ==> r.sps[l] == sp
  }

  lemma Place(l: nat, r: Rec)
    requires At(r, l, r.sp)
    ensures Record(L(l), r) == Rec(r.sp, r.sps[l := r.sp])
    ensures Fold([L(l)], r) == Record(L(l), r) && AdjustsDown([L(l)], r)
  {
    One(L(l), r);
    if l in r.sps { assert r.sps == r.sps[l := r.sp]; }
  }

  lemma Replace(l: nat, r: Rec)
    requires l in r.sps
    ensures Record(L(l), r) == Rec(r.sps[l], r.sps)
    ensures Fold([L(l)], r) == Record(L(l), r) && AdjustsDown([L(l)], r)
  {
    One(L(l), r);
  }

  lemma Refer(i: Insn, l: nat, r: Rec)
    requires Target(i) == Some(l) && At(r, l, r.sp + Effect(i))
    ensures Record(I(i), r) == Rec(r.sp + Effect(i), r.sps[l := r.sp + Effect(i)])
    ensures Fold([I(i)], r) == Record(I(i), r) && AdjustsDown([I(i)], r)
  {
    One(I(i), r);
    if l in r.sps { assert r.sps == r.sps[l := r.sp + Effect(i)]; }
  }

  lemma Plain(i: Insn, r: Rec)
    requires Target(i) == None
    ensures Record(I(i), r) == Rec(r.sp + Effect(i), r.sps)
    ensures Fold([I(i)], r) == Record(I(i), r) && AdjustsDown([I(i)], r)
  {
    One(I(i), r);
  }

  lemma Adjust(l: nat, emits: bool, r: Rec)
    requires l in r.sps && (emits ==> 0 <= r.sps[l] <= r.sp)
    ensures Record(Adj(l, emits), r) == Rec(r.sps[l], r.sps)
    ensures Fold([Adj(l, emits)], r) == Record(Adj(l, emits), r) && AdjustsDown([Adj(l, emits)], r)
  {
    One(Adj(l, emits), r);
  }

  lemma One(e: Elem, r: Rec)
    ensures Fold([e], r) == Record(e, r)
    ensures !(e.Adj? && e.emits) ==> AdjustsDown([e], r)
    ensures e.Adj? && e.l in r.sps && 0 <= r.sps[e.l] <= r.sp ==> AdjustsDown([e], r)
  {
    assert [e][1..] == [];
    assert AdjustsDown([], Record(e, r));
  }

  lemma Two(e: Elem, f: Elem, r: Rec)
    ensures Fold([e, f], r) == Record(f, Record(e, r))
    ensures !(e.Adj? && e.emits) && !(f.Adj? && f.emits) ==> AdjustsDown([e, f], r)
  {
    assert [e, f] == [e] + [f];
    Chain([e], [f], r);
    One(e, r);
    One(f, Record(e, r));
  }

  lemma Opt(poped: bool, e: Elem, r: Rec)
    requires !e.Adj?
    ensures Fold(Unless(poped, [e]), r) == if poped then r else Record(e, r)
    ensures AdjustsDown(Unless(poped, [e]), r)
  {
    One(e, r);
    assert AdjustsDown([], r);
  }

  lemma OptPlain(poped: bool, i: Insn, r: Rec)
    requires Target(i) == None
    ensures Fold(Unless(poped, [I(i)]), r) == Rec(r.sp + (if poped then 0 else Effect(i)), r.sps)
    ensures AdjustsDown(Unless(poped, [I(i)]), r)
  {
    Opt(poped, I(i), r);
    Plain(i, r);
  }

  /** A recorded depth never changes. */
  lemma {:induction false} Grows(c: Code, r: Rec, l: nat)
    requires l in r.sps
    ensures l in Fold(c, r).sps && Fold(c, r).sps[l] == r.sps[l]
    decreases |c|
  {
    if c != [] { Grows(c[1..], Record(c[0], r), l); }
  }

  /** A label's record is the same before and after. */
  ghost predicate SameAt(r: Rec, r': Rec, l: nat) {
    (l in r'.sps <==> l in r.sps) && (l in r.sps ==> r'.sps[l] == r.sps[l])
  }

  /** A list that neither places nor refers to a label leaves its record alone. */
  lemma {:induction false} Untouched(c: Code, r: Rec, l: nat)
    requires Defs(c, l) == 0 && Refs(c, l) == 0
    ensures SameAt(r, Fold(c, r), l)
    decreases |c|
  {
    if c != [] { Untouched(c[1..], Record(c[0], r), l); }
  }

  lemma Keeps(n: Node, poped: bool, ctx: Loop, k: nat, r: Rec, l: nat)
    requires WellFormed(n, ctx.InLoop?) && In(l, k, Labels(n)) == 0 && !(ctx.InLoop? && l == ctx.brk)
    ensures SameAt(r, Fold(Lower(n, poped, ctx, k), r), l)
  {
    hide Lower, Labels, WellFormed, Fold, Defs, Refs, SameAt;
    LabelsOnce(n, poped, ctx, k, l);
    Untouched(Lower(n, poped, ctx, k), r, l);
  }

  lemma CondKeeps(c: Node, t: nat, e: nat, ctx: Loop, k: nat, r: Rec, l: nat)
    requires WellFormed(c, ctx.InLoop?) && In(l, k, CondLabels(c)) == 0 && !(ctx.InLoop? && l == ctx.brk) && l != t
    requires l != e
    ensures SameAt(r, Fold(LowerCond(c, t, e, ctx, k), r), l)
  {
    hide LowerCond, CondLabels, WellFormed, Fold, Defs, Refs, SameAt;
    CondLabelsOnce(c, t, e, ctx, k, l);
    Untouched(LowerCond(c, t, e, ctx, k), r, l);
  }

  /** The n labels from k on are not recorded yet. */
  ghost predicate Unused(r: Rec, k: nat, n: nat) {
    forall l: nat :: k <= l < k + n ==> l !in r.sps
  }

  lemma StillUnused(n: Node, poped: bool, ctx: Loop, k: nat, r: Rec, lo: nat, len: nat)
    requires WellFormed(n, ctx.InLoop?) && Unused(r, lo, len) && (k + Labels(n) <= lo || lo + len <= k)
    requires ctx.InLoop? ==> ctx.brk < lo || lo + len <= ctx.brk
    ensures Unused(Fold(Lower(n, poped, ctx, k), r), lo, len)
  {
    hide Lower, Labels, WellFormed, Fold;
    forall l: nat | lo <= l < lo + len ensures l !in Fold(Lower(n, poped, ctx, k), r).sps {
      Keeps(n, poped, ctx, k, r, l);
    }
  }

  lemma CondStillUnused(c: Node, t: nat, e: nat, ctx: Loop, k: nat, r: Rec, lo: nat, len: nat)
    requires WellFormed(c, ctx.InLoop?) && Unused(r, lo, len) && (k + CondLabels(c) <= lo || lo + len <= k)
    requires (ctx.InLoop? ==> ctx.brk < lo || lo + len <= ctx.brk) && !(lo <= t < lo + len) && !(lo <= e < lo + len)
    ensures Unused(Fold(LowerCond(c, t, e, ctx, k), r), lo, len)
  {
    hide LowerCond, CondLabels, WellFormed, Fold;
    forall l: nat | lo <= l < lo + len ensures l !in Fold(LowerCond(c, t, e, ctx, k), r).sps {
      CondKeeps(c, t, e, ctx, k, r, l);
    }
  }

  // ----- the depths of the lowered forms -----

  /** What is recorded of the enclosing loop: its body starts no higher than here, and break arrives
      one above that. */
  ghost predicate LoopKnown(ctx: Loop, r: Rec) {
    ctx.InLoop? ==>
      && ctx.redo in r.sps && 0 <= r.sps[ctx.redo] <= r.sp
      && (ctx.brk in r.sps ==> r.sps[ctx.brk] == r.sps[ctx.redo] + 1)
  }

  /** The enclosing loop is recorded as before, and break at the right depth if at all. */
  ghost predicate LoopKept(ctx: Loop, r: Rec, r': Rec) {
    ctx.InLoop? ==>
      && ctx.redo in r.sps && ctx.redo in r'.sps && r'.sps[ctx.redo] == r.sps[ctx.redo]
      && (ctx.brk in r'.sps ==> r'.sps[ctx.brk] == r.sps[ctx.redo] + 1)
  }

  /** The enclosing loop's labels are older than k. */
  ghost predicate Below(ctx: Loop, k: nat) {
    ctx.InLoop? ==> ctx.redo < k && ctx.brk < k && ctx.redo != ctx.brk
  }

  /** A node may be lowered here. */
  ghost predicate Ready(n: Node, ctx: Loop, k: nat, r: Rec) {
    WellFormed(n, ctx.InLoop?) && LoopKnown(ctx, r) && Below(ctx, k) && Unused(r, k, Labels(n)) && r.sp >= 0
  }

  /** A condition may be lowered here. */
  ghost predicate ReadyCond(c: Node, t: nat, e: nat, ctx: Loop, k: nat, r: Rec) {
    && WellFormed(c, ctx.InLoop?) && LoopKnown(ctx, r) && Below(ctx, k) && Unused(r, k, CondLabels(c)) && r.sp >= 0
    && t < k && e < k && (ctx.InLoop? ==> t != ctx.brk && e != ctx.brk)
    && At(r, t, r.sp) && At(r, e, r.sp)
  }

  /** Whether the lowered condition refers to its else label at all. */
  predicate RefersElse(c: Node) {
    match c
    case And(a, b) => RefersElse(a) || RefersElse(b)
    case Or(a, b) => RefersElse(b)
    case Lit(_) => false
    case TrueLit => false
    case _ => true
  }

  /** The value a node leaves. */
  function Left(poped: bool): int { if poped then 0 else 1 }

  /** Linking the lowered form of a node: the depth grows by the value it leaves and no adjustment
      goes wrong, in code that never runs too. */
  lemma {:induction false} LinkLower(n: Node, poped: bool, ctx: Loop, k: nat, r: Rec)
    requires Ready(n, ctx, k, r)
    ensures Fold(Lower(n, poped, ctx, k), r).sp == r.sp + Left(poped)
    ensures LoopKept(ctx, r, Fold(Lower(n, poped, ctx, k), r))
    ensures AdjustsDown(Lower(n, poped, ctx, k), r)
    decreases n, 0, 1
  {
    hide Fold, AdjustsDown, Lower, LowerCond, WellFormed, Labels, CondLabels;
    match n
    case LAsgn(i, value) =>
      AsgnParts(n, ctx.InLoop?);
      AsgnShape(n, poped, ctx, k);
      LinkLower(value, false, ctx, k, r);
      var r1 := Fold(Lower(value, false, ctx, k), r);
      Chain(Lower(value, false, ctx, k), Unless(poped, [I(Dup)]) + [I(SetLocal(i))], r);
      Chain(Unless(poped, [I(Dup)]), [I(SetLocal(i))], r1);
      OptPlain(poped, Dup, r1);
      Plain(SetLocal(i), Fold(Unless(poped, [I(Dup)]), r1));
    case Block(head, next) =>
      BlockParts(n, ctx.InLoop?);
      BlockShape(n, poped, ctx, k);
      if next.Absent? { LinkLower(head, poped, ctx, k, r); } else { var _ := LinkBlock(n, poped, ctx, k, r); }
    case If(_, _, _) => var _, _ := LinkIf(n, poped, ctx, k, r);
    case And(_, _) => var _ := LinkShort(n, poped, ctx, k, r);
    case Or(_, _) => var _ := LinkShort(n, poped, ctx, k, r);
    case While(_, _, _, _) => var _, _, _ := LinkWhile(n, poped, ctx, k, r);
    case Break(_) => var _ := LinkBreak(n, poped, ctx, k, r);
    case _ =>
      LeafShape(n, poped, ctx, k);
      OptPlain(poped, Leaf(n), r);
  }

  lemma {:induction false} LinkBlock(n: Node, poped: bool, ctx: Loop, k: nat, r: Rec) returns (r1: Rec)
    requires n.Block? && !n.next.Absent? && Ready(n, ctx, k, r)
    ensures Ready(n.head, ctx, k, r) && r1 == Fold(Lower(n.head, true, ctx, k), r) && r1.sp == r.sp
    ensures Ready(n.next, ctx, k + Labels(n.head), r1)
    ensures Fold(Lower(n, poped, ctx, k), r).sp == r.sp + Left(poped)
    ensures LoopKept(ctx, r, Fold(Lower(n, poped, ctx, k), r))
    ensures AdjustsDown(Lower(n, poped, ctx, k), r)
    decreases n, 0, 0
  {
    hide Fold, AdjustsDown, Lower, LowerCond, WellFormed, Labels, CondLabels, Record;
    BlockParts(n, ctx.InLoop?);
    BlockShape(n, poped, ctx, k);
    LinkLower(n.head, true, ctx, k, r);
    r1 := Fold(Lower(n.head, true, ctx, k), r);
    Chain(Lower(n.head, true, ctx, k), Lower(n.next, poped, ctx, k + Labels(n.head)), r);
    StillUnused(n.head, true, ctx, k, r, k + Labels(n.head), Labels(n.next));
    LinkLower(n.next, poped, ctx, k + Labels(n.head), r1);
  }

  lemma {:induction false} LinkCond(c: Node, t: nat, e: nat, ctx: Loop, k: nat, r: Rec)
    requires ReadyCond(c, t, e, ctx, k, r)
    ensures var r' := Fold(LowerCond(c, t, e, ctx, k), r);
            && r'.sp == r.sp && LoopKept(ctx, r, r') && At(r', t, r.sp) && At(r', e, r.sp)
            && (RefersElse(c) ==> e in r'.sps)
    ensures AdjustsDown(LowerCond(c, t, e, ctx, k), r)
    decreases c, 1
  {
    hide Fold, AdjustsDown;
    match c
    case And(a, b) => var _ := LinkPair(c, t, e, ctx, k, r);
    case Or(a, b) => var _ := LinkPair(c, t, e, ctx, k, r);
    case Lit(_) => One(I(Jump(t)), r);
    case TrueLit => One(I(Jump(t)), r);
    case FalseLit => One(I(Jump(e)), r);
    case NilLit => One(I(Jump(e)), r);
    case _ => LinkTested(c, t, e, ctx, k, r);
  }

  lemma {:induction false} LinkTested(c: Node, t: nat, e: nat, ctx: Loop, k: nat, r: Rec)
    requires Tested(c) && ReadyCond(c, t, e, ctx, k, r)
    ensures Ready(c, ctx, k, r)
    ensures var r' := Fold(LowerCond(c, t, e, ctx, k), r);
            r'.sp == r.sp && LoopKept(ctx, r, r') && At(r', t, r.sp) && At(r', e, r.sp) && e in r'.sps
    ensures AdjustsDown(LowerCond(c, t, e, ctx, k), r)
    decreases c, 0, 2
  {
    hide Fold, AdjustsDown, Lower, LowerCond, WellFormed, Labels, CondLabels, RefersElse;
    TestedShape(c, t, e, ctx, k);
    LinkLower(c, false, ctx, k, r);
    var r1 := Fold(Lower(c, false, ctx, k), r);
    Chain(Lower(c, false, ctx, k), [I(BranchUnless(e)), I(Jump(t))], r);
    Keeps(c, false, ctx, k, r, t);
    Keeps(c, false, ctx, k, r, e);
    Two(I(BranchUnless(e)), I(Jump(t)), r1);
  }

  /** r1 is the record between the two halves. */
  lemma {:induction false} LinkPair(c: Node, t: nat, e: nat, ctx: Loop, k: nat, r: Rec) returns (r1: Rec)
    requires (c.And? || c.Or?) && ReadyCond(c, t, e, ctx, k, r)
    ensures ReadyCond(c.a, First(c, t, true, k), First(c, e, false, k), ctx, k + 1, r)
    ensures r1 == Record(L(k), Fold(LowerCond(c.a, First(c, t, true, k), First(c, e, false, k), ctx, k + 1), r))
    ensures r1.sp == r.sp && ReadyCond(c.b, t, e, ctx, k + 1 + CondLabels(c.a), r1)
    ensures var r' := Fold(LowerCond(c, t, e, ctx, k), r);
            && r'.sp == r.sp && LoopKept(ctx, r, r') && At(r', t, r.sp) && At(r', e, r.sp)
            && (RefersElse(c) ==> e in r'.sps)
    ensures AdjustsDown(LowerCond(c, t, e, ctx, k), r)
    decreases c, 0
  {
    hide Fold, AdjustsDown, Lower, LowerCond, WellFormed, Labels, CondLabels, Record;
    ShortParts(c, ctx.InLoop?);
    PairShape(c, t, e, ctx, k);
    var t1, e1, k1 := First(c, t, true, k), First(c, e, false, k), k + 1 + CondLabels(c.a);
    var first, second := LowerCond(c.a, t1, e1, ctx, k + 1), LowerCond(c.b, t, e, ctx, k1);
    assert k !in r.sps && ReadyCond(c.a, t1, e1, ctx, k + 1, r);
    LinkCond(c.a, t1, e1, ctx, k + 1, r);
    var r0 := Fold(first, r);
    r1 := Record(L(k), r0);
    PairBetween(c, t, e, ctx, k, r, r0);
    hide ReadyCond, At;
    Chain(first, [L(k)] + second, r);
    Chain([L(k)], second, r0);
    LinkCond(c.b, t, e, ctx, k1, r1);
    if e in r1.sps { Grows(second, r1, e); }
  }

  /** Between the two halves, where r0 is the record behind the first. */
  lemma PairBetween(c: Node, t: nat, e: nat, ctx: Loop, k: nat, r: Rec, r0: Rec)
    requires (c.And? || c.Or?) && ReadyCond(c, t, e, ctx, k, r)
    requires CondLabels(c) == 1 + CondLabels(c.a) + CondLabels(c.b)
    requires WellFormed(c.a, ctx.InLoop?) && WellFormed(c.b, ctx.InLoop?)
    requires var t1, e1 := First(c, t, true, k), First(c, e, false, k);
             && r0 == Fold(LowerCond(c.a, t1, e1, ctx, k + 1), r) && r0.sp == r.sp && LoopKept(ctx, r, r0)
             && At(r0, t1, r.sp) && At(r0, e1, r.sp)
    ensures var r1 := Record(L(k), r0);
            && r1.sp == r.sp && r1.sps == r0.sps[k := r.sp] && LoopKept(ctx, r, r1)
            && ReadyCond(c.b, t, e, ctx, k + 1 + CondLabels(c.a), r1)
            && Fold([L(k)], r0) == r1 && AdjustsDown([L(k)], r0)
  {
    hide Fold, AdjustsDown, Lower, LowerCond, WellFormed, Labels, CondLabels, Record;
    var t1, e1, k1 := First(c, t, true, k), First(c, e, false, k), k + 1 + CondLabels(c.a);
    Place(k, r0);
    CondStillUnused(c.a, t1, e1, ctx, k + 1, r, k1, CondLabels(c.b));
    if t != t1 && t != e1 { CondKeeps(c.a, t1, e1, ctx, k + 1, r, t); }
    if e != t1 && e != e1 { CondKeeps(c.a, t1, e1, ctx, k + 1, r, e); }
  }

  /** r1 is the record where the then branch starts, r2 where the else branch does. */
  lemma {:induction false} LinkIf(n: Node, poped: bool, ctx: Loop, k: nat, r: Rec) returns (r1: Rec, r2: Rec)
    requires n.If? && Ready(n, ctx, k, r)
    ensures ReadyCond(n.cond, k, k + 1, ctx, k + 3, r)
    ensures var k1 := k + 3 + CondLabels(n.cond);
            && r1 == Record(L(k), Fold(LowerCond(n.cond, k, k + 1, ctx, k + 3), r))
            && r1.sp == r.sp && Ready(n.body, ctx, k1, r1)
            && r2 == Record(L(k + 1), Record(I(Jump(k + 2)), Fold(Lower(n.body, poped, ctx, k1), r1)))
            && (RefersElse(n.cond) ==> r2.sp == r.sp) && Ready(n.els, ctx, k1 + Labels(n.body), r2)
    ensures Fold(Lower(n, poped, ctx, k), r).sp == r.sp + Left(poped)
    ensures LoopKept(ctx, r, Fold(Lower(n, poped, ctx, k), r))
    ensures AdjustsDown(Lower(n, poped, ctx, k), r)
    decreases n, 0, 0
  {
    hide Fold, AdjustsDown, Lower, LowerCond, WellFormed, Labels, CondLabels, Record, RefersElse;
    IfParts(n, ctx.InLoop?);
    IfShape(n, poped, ctx, k);
    var cond, body, els := n.cond, n.body, n.els;
    var k1 := k + 3 + CondLabels(cond);
    var k2 := k1 + Labels(body);
    var c0 := LowerCond(cond, k, k + 1, ctx, k + 3);
    var c1, c2 := Lower(body, poped, ctx, k1), Lower(els, poped, ctx, k2);
    var mid := [I(Jump(k + 2)), L(k + 1)];
    assert ReadyCond(cond, k, k + 1, ctx, k + 3, r);
    LinkCond(cond, k, k + 1, ctx, k + 3, r);
    var r0 := Fold(c0, r);
    ThenReady(n, ctx, k, r, r0);
    r1 := Record(L(k), r0);
    LinkLower(body, poped, ctx, k1, r1);
    var r3 := Fold(c1, r1);
    ElseReady(n, poped, ctx, k, r, r1, r3);
    r2 := Record(L(k + 1), Record(I(Jump(k + 2)), r3));
    hide Ready, ReadyCond, Unused;
    Chain(c0, Fork(k, c1, c2), r);
    Chain([L(k)], c1 + (mid + (c2 + [L(k + 2)])), r0);
    Chain(c1, mid + (c2 + [L(k + 2)]), r1);
    Chain(mid, c2 + [L(k + 2)], r3);
    LinkLower(els, poped, ctx, k2, r2);
    Chain(c2, [L(k + 2)], r2);
    Grows(c2, r2, k + 2);
    Replace(k + 2, Fold(c2, r2));
  }

  /** Behind the condition, whose record is r0, the then branch may be lowered. */
  lemma ThenReady(n: Node, ctx: Loop, k: nat, r: Rec, r0: Rec)
    requires n.If? && Ready(n, ctx, k, r) && Labels(n) == 3 + CondLabels(n.cond) + Labels(n.body) + Labels(n.els)
    requires WellFormed(n.cond, ctx.InLoop?) && WellFormed(n.body, ctx.InLoop?)
    requires r0 == Fold(LowerCond(n.cond, k, k + 1, ctx, k + 3), r) && r0.sp == r.sp && LoopKept(ctx, r, r0)
    requires At(r0, k, r.sp) && At(r0, k + 1, r.sp)
    ensures var r1, k1 := Record(L(k), r0), k + 3 + CondLabels(n.cond);
            && r1.sp == r.sp && LoopKept(ctx, r, r1) && Ready(n.body, ctx, k1, r1)
            && Unused(r1, k1, Labels(n.body) + Labels(n.els)) && k + 2 !in r1.sps && SameAt(r0, r1, k + 1)
            && Fold([L(k)], r0) == r1 && AdjustsDown([L(k)], r0)
  {
    hide Fold, AdjustsDown, Lower, LowerCond, WellFormed, Labels, CondLabels, Record;
    var k1 := k + 3 + CondLabels(n.cond);
    assert k + 2 !in r.sps;
    Place(k, r0);
    CondKeeps(n.cond, k, k + 1, ctx, k + 3, r, k + 2);
    CondStillUnused(n.cond, k, k + 1, ctx, k + 3, r, k1, Labels(n.body) + Labels(n.els));
  }

  /** Behind the then branch, whose record is r3, the else branch may be lowered. */
  lemma ElseReady(n: Node, poped: bool, ctx: Loop, k: nat, r: Rec, r1: Rec, r3: Rec)
    requires n.If? && Ready(n, ctx, k, r) && WellFormed(n.body, ctx.InLoop?) && WellFormed(n.els, ctx.InLoop?)
    requires LoopKept(ctx, r, r1) && r1.sp == r.sp && At(r1, k + 1, r.sp) && k + 2 !in r1.sps
    requires var k1 := k + 3 + CondLabels(n.cond);
             && Unused(r1, k1, Labels(n.body) + Labels(n.els)) && r3 == Fold(Lower(n.body, poped, ctx, k1), r1)
             && LoopKept(ctx, r1, r3) && r3.sp == r.sp + Left(poped)
    ensures var r4, k2 := Record(I(Jump(k + 2)), r3), k + 3 + CondLabels(n.cond) + Labels(n.body);
            var r2, mid := Record(L(k + 1), r4), [I(Jump(k + 2)), L(k + 1)];
            && Fold(mid, r3) == r2 && AdjustsDown(mid, r3) && Ready(n.els, ctx, k2, r2) && LoopKept(ctx, r, r2)
            && k + 2 in r2.sps && r2.sps[k + 2] == r.sp + Left(poped)
            && (k + 1 in r1.sps ==> r2.sp == r.sp)
  {
    hide Fold, AdjustsDown, Lower, LowerCond, WellFormed, Labels, CondLabels, Record;
    var k1 := k + 3 + CondLabels(n.cond);
    var k2 := k1 + Labels(n.body);
    Keeps(n.body, poped, ctx, k1, r1, k + 1);
    Keeps(n.body, poped, ctx, k1, r1, k + 2);
    StillUnused(n.body, poped, ctx, k1, r1, k2, Labels(n.els));
    Two(I(Jump(k + 2)), L(k + 1), r3);
    Refer(Jump(k + 2), k + 2, r3);
    var r4 := Record(I(Jump(k + 2)), r3);
    if k + 1 in r4.sps { Replace(k + 1, r4); } else { Place(k + 1, r4); }
  }

  /** r1 is the record where the second operand starts. */
  lemma {:induction false} LinkShort(n: Node, poped: bool, ctx: Loop, k: nat, r: Rec) returns (r1: Rec)
    requires (n.And? || n.Or?) && Ready(n, ctx, k, r)
    ensures Ready(n.a, ctx, k + 1, r) && Ready(n.b, ctx, k + 1 + Labels(n.a), r1) && r1.sp == r.sp
    ensures r1 == Fold(Unless(poped, [I(Pop)]),
                       Record(Around(n, k), Fold(Unless(poped, [I(Dup)]), Fold(Lower(n.a, false, ctx, k + 1), r))))
    ensures Fold(Lower(n, poped, ctx, k), r).sp == r.sp + Left(poped)
    ensures LoopKept(ctx, r, Fold(Lower(n, poped, ctx, k), r))
    ensures AdjustsDown(Lower(n, poped, ctx, k), r)
    decreases n, 0, 0
  {
    hide Fold, AdjustsDown, Lower, LowerCond, WellFormed, Labels, CondLabels, Record;
    ShortParts(n, ctx.InLoop?);
    ShortShape(n, poped, ctx, k);
    var k1, br := k + 1 + Labels(n.a), Around(n, k);
    var c1, c2 := Lower(n.a, false, ctx, k + 1), Lower(n.b, poped, ctx, k1);
    var x, y := Unless(poped, [I(Dup)]), Unless(poped, [I(Pop)]);
    assert k !in r.sps;
    LinkLower(n.a, false, ctx, k + 1, r);
    Keeps(n.a, false, ctx, k + 1, r, k);
    StillUnused(n.a, false, ctx, k + 1, r, k1, Labels(n.b));
    var r2 := Fold(c1, r);
    Chain(c1, Short(k, br, poped, c2), r);
    Chain(x, [br] + (y + (c2 + [L(k)])), r2);
    OptPlain(poped, Dup, r2);
    var r3 := Fold(x, r2);
    Chain([br], y + (c2 + [L(k)]), r3);
    Refer(br.insn, k, r3);
    var r4 := Record(br, r3);
    Chain(y, c2 + [L(k)], r4);
    OptPlain(poped, Pop, r4);
    r1 := Fold(y, r4);
    LinkLower(n.b, poped, ctx, k1, r1);
    Chain(c2, [L(k)], r1);
    Grows(c2, r1, k);
    Replace(k, Fold(c2, r1));
  }

  /** The entry of a loop leaves its next and redo labels at the current depth. */
  lemma LinkHead(k: nat, testFirst: bool, r: Rec)
    requires Unused(r, k, if testFirst then 5 else 6) && r.sp >= 0
    ensures var r' := Fold(LoopHead(k, testFirst), r);
            && r'.sp == r.sp && k in r'.sps && r'.sps[k] == r.sp && k + 1 in r'.sps && r'.sps[k + 1] == r.sp
    ensures Fold(LoopEntry(k, testFirst), r).sp == r.sp
    ensures AdjustsDown(LoopHead(k, testFirst), r)
  {
    hide Fold, AdjustsDown, Record, LoopEntry;
    LinkEntry(k, testFirst, r);
    Chain(LoopEntry(k, testFirst), [L(k + 1)], r);
    Place(k + 1, Fold(LoopEntry(k, testFirst), r));
  }

  lemma LinkEntry(k: nat, testFirst: bool, r: Rec)
    requires Unused(r, k, if testFirst then 5 else 6) && r.sp >= 0
    ensures var r' := Fold(LoopEntry(k, testFirst), r);
            r'.sp == r.sp && k in r'.sps && r'.sps[k] == r.sp && k + 1 !in r'.sps
    ensures AdjustsDown(LoopEntry(k, testFirst), r)
  {
    hide Fold, AdjustsDown, Record;
    var x, d := if testFirst then k else k + 5, Unless(testFirst, [L(k + 5)]);
    assert LoopEntry(k, testFirst) == [I(Jump(x))] + ([I(PutNil)] + ([L(k + 4)] + ([I(Pop)] + ([I(Jump(k))] + d))));
    Chain([I(Jump(x))], [I(PutNil)] + ([L(k + 4)] + ([I(Pop)] + ([I(Jump(k))] + d))), r);
    Refer(Jump(x), x, r);
    var r1 := Record(I(Jump(x)), r);
    Chain([I(PutNil)], [L(k + 4)] + ([I(Pop)] + ([I(Jump(k))] + d)), r1);
    Plain(PutNil, r1);
    var r2 := Record(I(PutNil), r1);
    Chain([L(k + 4)], [I(Pop)] + ([I(Jump(k))] + d), r2);
    Place(k + 4, r2);
    var r3 := Record(L(k + 4), r2);
    Chain([I(Pop)], [I(Jump(k))] + d, r3);
    Plain(Pop, r3);
    var r4 := Record(I(Pop), r3);
    Chain([I(Jump(k))], d, r4);
    Refer(Jump(k), k, r4);
    var r5 := Record(I(Jump(k)), r4);
    Opt(testFirst, L(k + 5), r5);
    if !testFirst { Place(k + 5, r5); }
  }

  lemma LinkTail(k: nat, poped: bool, r: Rec)
    requires At(r, k + 3, r.sp) && At(r, k + 2, r.sp + 1)
    ensures var r1 := Record(L(k + 3), r);
            var r2 := Record(L(k + 2), Record(I(PutNil), r1));
            && r1.sp == r.sp && r2.sp == r.sp + 1
            && Fold(LoopTail(k, poped), r) == Rec(r.sp + Left(poped), r.sps[k + 3 := r.sp][k + 2 := r.sp + 1])
    ensures AdjustsDown(LoopTail(k, poped), r)
  {
    hide Fold, AdjustsDown, Record;
    var a, b, c := [L(k + 3)], [I(PutNil)], Unless(!poped, [I(Pop)]);
    assert LoopTail(k, poped) == a + (b + ([L(k + 2)] + c));
    Chain(a, b + ([L(k + 2)] + c), r);
    Place(k + 3, r);
    var r1 := Record(L(k + 3), r);
    Chain(b, [L(k + 2)] + c, r1);
    Plain(PutNil, r1);
    var r2 := Record(I(PutNil), r1);
    Chain([L(k + 2)], c, r2);
    Place(k + 2, r2);
    var r3 := Record(L(k + 2), r2);
    OptPlain(!poped, Pop, r3);
    Plain(Pop, r3);
  }

  /** r1 is the record where the body starts, r2 where the condition does, r3 after it. */
  lemma {:induction false} LinkWhile(n: Node, poped: bool, ctx: Loop, k: nat, r: Rec)
    returns (r1: Rec, r2: Rec, r3: Rec)
    requires n.While? && Ready(n, ctx, k, r)
    ensures r1 == Fold(LoopHead(k, n.testFirst), r) && r1.sp == r.sp && Ready(n.body, Inside(k), k + Own(n), r1)
    ensures k + 1 in r1.sps && r1.sps[k + 1] == r.sp
    ensures r2 == Record(L(k), Fold(Lower(n.body, true, Inside(k), k + Own(n)), r1)) && r2.sp == r.sp
    ensures ReadyCond(n.cond, Onward(n, k, true), Onward(n, k, false), Inside(k), k + Own(n) + Labels(n.body), r2)
    ensures k + 1 in r2.sps && r2.sps[k + 1] == r.sp
    ensures r3 == Fold(LowerCond(n.cond, Onward(n, k, true), Onward(n, k, false), Inside(k),
                                 k + Own(n) + Labels(n.body)), r2)
    ensures r3.sp == r.sp && At(r3, k + 3, r.sp) && At(r3, k + 2, r.sp + 1)
    ensures Fold(Lower(n, poped, ctx, k), r).sp == r.sp + Left(poped)
    ensures LoopKept(ctx, r, Fold(Lower(n, poped, ctx, k), r))
    ensures AdjustsDown(Lower(n, poped, ctx, k), r)
    decreases n, 0, 0
  {
    hide Fold, AdjustsDown, Lower, LowerCond, WellFormed, Labels, CondLabels, Record, LoopHead, LoopTail, Defs, Refs,
         RefersElse;
    WhileParts(n, ctx.InLoop?);
    WhileShape(n, poped, ctx, k);
    var k1, inner, t, e := k + Own(n), Inside(k), Onward(n, k, true), Onward(n, k, false);
    var k2 := k1 + Labels(n.body);
    var head, c1 := LoopHead(k, n.testFirst), Lower(n.body, true, inner, k1);
    var c2, tail := LowerCond(n.cond, t, e, inner, k2), LoopTail(k, poped);
    r1 := Fold(head, r);
    LinkHead(k, n.testFirst, r);
    HeadKeeps(n, ctx, k, r);
    Chain(head, c1 + ([L(k)] + (c2 + tail)), r);
    LinkLower(n.body, true, inner, k1, r1);
    StillUnused(n.body, true, inner, k1, r1, k2, CondLabels(n.cond));
    Keeps(n.body, true, inner, k1, r1, k + 3);
    var r0 := Fold(c1, r1);
    Grows(c1, r1, k);
    Grows(c1, r1, k + 1);
    Chain(c1, [L(k)] + (c2 + tail), r1);
    Chain([L(k)], c2 + tail, r0);
    Replace(k, r0);
    r2 := Record(L(k), r0);
    LinkCond(n.cond, t, e, inner, k2, r2);
    r3 := Fold(c2, r2);
    Grows(c2, r2, k + 1);
    Chain(c2, tail, r2);
    LinkTail(k, poped, r3);
    if ctx.InLoop? {
      Keeps(n.body, true, inner, k1, r1, ctx.redo);
      CondKeeps(n.cond, t, e, inner, k2, r2, ctx.redo);
      Keeps(n.body, true, inner, k1, r1, ctx.brk);
      CondKeeps(n.cond, t, e, inner, k2, r2, ctx.brk);
    }
  }

  /** The entry of a loop touches no label but its own, nor its break and end labels. */
  lemma HeadKeeps(n: Node, ctx: Loop, k: nat, r: Rec)
    requires n.While? && Below(ctx, k) && Unused(r, k, Labels(n))
    requires Labels(n) == Own(n) + Labels(n.body) + CondLabels(n.cond)
    ensures var r1 := Fold(LoopHead(k, n.testFirst), r);
            && k + 2 !in r1.sps && k + 3 !in r1.sps && Unused(r1, k + Own(n), Labels(n.body) + CondLabels(n.cond))
            && (ctx.InLoop? ==> SameAt(r, r1, ctx.redo) && SameAt(r, r1, ctx.brk))
  {
    hide Fold, Labels, CondLabels, LoopHead, Defs, Refs;
    var r1 := Fold(LoopHead(k, n.testFirst), r);
    forall l: nat | l < k || l == k + 2 || l == k + 3 || k + Own(n) <= l ensures SameAt(r, r1, l) {
      HeadLabels(k, n.testFirst, l);
      Untouched(LoopHead(k, n.testFirst), r, l);
    }
    assert SameAt(r, r1, k + 2) && SameAt(r, r1, k + 3);
    forall l: nat | k + Own(n) <= l < k + Labels(n) ensures l !in r1.sps {
      assert SameAt(r, r1, l);
    }
  }

  /** r1 is the record where the value of break is computed. */
  lemma {:induction false} LinkBreak(n: Node, poped: bool, ctx: Loop, k: nat, r: Rec) returns (r1: Rec)
    requires n.Break? && Ready(n, ctx, k, r)
    ensures ctx.InLoop? && r1 == Record(Adj(ctx.redo, true), Record(L(k), r)) && Ready(n.value, ctx, k + 1, r1)
    ensures r1.sp == r.sps[ctx.redo] && r1.sps[ctx.redo] == r.sps[ctx.redo] && k !in r.sps
    ensures Fold(Lower(n, poped, ctx, k), r).sp == r.sp + Left(poped)
    ensures LoopKept(ctx, r, Fold(Lower(n, poped, ctx, k), r))
    ensures AdjustsDown(Lower(n, poped, ctx, k), r)
    decreases n, 0, 0
  {
    hide Fold, AdjustsDown, Lower, LowerCond, WellFormed, Labels, CondLabels, Record;
    BreakParts(n, ctx.InLoop?);
    BreakShape(n, poped, ctx, k);
    var c1, tail := Lower(n.value, false, ctx, k + 1), [I(Jump(ctx.brk)), Adj(k, false)];
    var last, r0 := Unless(poped, [I(PutNil)]), Record(L(k), r);
    assert k !in r.sps;
    assert [L(k), Adj(ctx.redo, true)] == [L(k)] + [Adj(ctx.redo, true)];
    Chain([L(k)] + [Adj(ctx.redo, true)], c1 + (tail + last), r);
    Chain([L(k)], [Adj(ctx.redo, true)], r);
    Place(k, r);
    Adjust(ctx.redo, true, r0);
    r1 := Record(Adj(ctx.redo, true), r0);
    LinkLower(n.value, false, ctx, k + 1, r1);
    var r2 := Fold(c1, r1);
    Chain(c1, tail + last, r1);
    Chain(tail, last, r2);
    assert tail == [I(Jump(ctx.brk))] + [Adj(k, false)];
    Chain([I(Jump(ctx.brk))], [Adj(k, false)], r2);
    Refer(Jump(ctx.brk), ctx.brk, r2);
    Grows(c1, r1, k);
    Adjust(k, false, Record(I(Jump(ctx.brk)), r2));
    OptPlain(poped, PutNil, Record(Adj(k, false), Record(I(Jump(ctx.brk)), r2)));
  }
}
