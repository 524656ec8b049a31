/** The element list that compile.c emits for a node, and where its labels are. */
module Lowering {
  import opened Nodes
  import opened Options

  datatype Insn =
    | PutNil | PutObject(v: Value) | Pop | Dup | GetLocal(i: nat) | SetLocal(i: nat)
    | Jump(l: nat) | BranchIf(l: nat) | BranchUnless(l: nat) | Leave

  /** A list element: an instruction, a label, or an ADJUST to the depth of a label; one that only
      restores the recorded depth (line number -1) emits nothing. */
  datatype Elem = I(insn: Insn) | L(l: nat) | Adj(l: nat, emits: bool)

  type Code = seq<Elem>

  /** The labels break needs: where the enclosing loop's body starts and where break goes. */
  datatype Loop = NoLoop | InLoop(redo: nat, brk: nat)

  // ----- lowering -----

  /** How many labels lowering a node takes. */
  function Labels(n: Node): nat
    decreases n, 0
  {
    match n
    case LAsgn(_, value) => Labels(value)
    case Block(head, next) => Labels(head) + Labels(next)
    case If(cond, body, els) => 3 + CondLabels(cond) + Labels(body) + Labels(els)
    case And(a, b) => 1 + Labels(a) + Labels(b)
    case Or(a, b) => 1 + Labels(a) + Labels(b)
    case While(cond, body, _, _) => Own(n) + Labels(body) + CondLabels(cond)
    case Break(value) => 1 + Labels(value)
    case _ => 0
  }

  function CondLabels(c: Node): nat
    decreases c, 1
  {
    match c
    case And(a, b) => 1 + CondLabels(a) + CondLabels(b)
    case Or(a, b) => 1 + CondLabels(a) + CondLabels(b)
    case Lit(_) => 0
    case TrueLit => 0
    case FalseLit => 0
    case NilLit => 0
    case _ => Labels(c)
  }

  function Unless<T>(poped: bool, code: seq<T>): seq<T> {
    if poped then [] else code
  }

  /** iseq_compile_each, taking label numbers from k on. */
  function Lower(n: Node, poped: bool, ctx: Loop, k: nat): Code
    decreases n, 0
  {
    match n
    case Absent => Unless(poped, [I(PutNil)])
    case NilLit => Unless(poped, [I(PutNil)])
    case TrueLit => Unless(poped, [I(PutObject(TrueV))])
    case FalseLit => Unless(poped, [I(PutObject(FalseV))])
    case Lit(x) => Unless(poped, [I(PutObject(Obj(x)))])
    case LVar(i) => Unless(poped, [I(GetLocal(i))])
    case LAsgn(i, value) => Lower(value, false, ctx, k) + (Unless(poped, [I(Dup)]) + [I(SetLocal(i))])
    case Block(head, next) =>
      if next.Absent? then Lower(head, poped, ctx, k)
      else Lower(head, true, ctx, k) + Lower(next, poped, ctx, k + Labels(head))
    case If(cond, body, els) =>
      var k1 := k + 3 + CondLabels(cond);
      LowerCond(cond, k, k + 1, ctx, k + 3)
      + Fork(k, Lower(body, poped, ctx, k1), Lower(els, poped, ctx, k1 + Labels(body)))
    case And(a, b) =>
      Lower(a, false, ctx, k + 1) + Short(k, I(BranchUnless(k)), poped, Lower(b, poped, ctx, k + 1 + Labels(a)))
    case Or(a, b) =>
      Lower(a, false, ctx, k + 1) + Short(k, I(BranchIf(k)), poped, Lower(b, poped, ctx, k + 1 + Labels(a)))
    case While(cond, body, _, testFirst) =>
      var k1 := k + Own(n);
      LoopHead(k, testFirst)
      + (Lower(body, true, Inside(k), k1)
         + ([L(k)]
            + (LowerCond(cond, Onward(n, k, true), Onward(n, k, false), Inside(k), k1 + Labels(body))
               + LoopTail(k, poped))))
    case Break(value) =>
      if ctx.NoLoop? then []
      else
        [L(k), Adj(ctx.redo, true)]
        + (Lower(value, false, ctx, k + 1)
           + ([I(Jump(ctx.brk)), Adj(k, false)] + Unless(poped, [I(PutNil)])))
  }

  /** The labels of a loop that its body sees, and where its condition goes. */
  function Inside(k: nat): Loop { InLoop(k + 1, k + 2) }
  function Own(w: Node): nat requires w.While? { if w.testFirst then 5 else 6 }
  function Onward(w: Node, k: nat, holds: bool): nat requires w.While? { if w.until == holds then k + 3 else k + 1 }

  /** The two branches of a conditional behind its condition: then at k, else at k + 1, end at k + 2. */
  function Fork(k: nat, c1: Code, c2: Code): Code {
    [L(k)] + (c1 + ([I(Jump(k + 2)), L(k + 1)] + (c2 + [L(k + 2)])))
  }

  /** What follows the first operand of && or ||: branch br leaves for the end label k. */
  function Short(k: nat, br: Elem, poped: bool, c: Code): Code {
    Unless(poped, [I(Dup)]) + ([br] + (Unless(poped, [I(Pop)]) + (c + [L(k)])))
  }

  /** The entry of a loop whose labels start at k: next, redo, break, end, the catch label of next,
      and for a body that runs first a label on it; then the body's label. */
  function LoopHead(k: nat, testFirst: bool): Code {
    LoopEntry(k, testFirst) + [L(k + 1)]
  }

  function LoopEntry(k: nat, testFirst: bool): Code {
    [I(Jump(if testFirst then k else k + 5)), I(PutNil), L(k + 4), I(Pop), I(Jump(k))] + Unless(testFirst, [L(k + 5)])
  }

  /** The end of a loop: nil for a loop that ran out, then where break arrives. */
  function LoopTail(k: nat, poped: bool): Code {
    [L(k + 3), I(PutNil), L(k + 2)] + Unless(!poped, [I(Pop)])
  }

  /** compile_branch_condition: jumps to label t when the condition holds, to e otherwise. */
  function LowerCond(c: Node, t: nat, e: nat, ctx: Loop, k: nat): Code
    decreases c, 1
  {
    match c
    case And(a, b) =>
      LowerCond(a, k, e, ctx, k + 1) + ([L(k)] + LowerCond(b, t, e, ctx, k + 1 + CondLabels(a)))
    case Or(a, b) =>
      LowerCond(a, t, k, ctx, k + 1) + ([L(k)] + LowerCond(b, t, e, ctx, k + 1 + CondLabels(a)))
    case Lit(_) => [I(Jump(t))]
    case TrueLit => [I(Jump(t))]
    case FalseLit => [I(Jump(e))]
    case NilLit => [I(Jump(e))]
    case _ => Lower(c, false, ctx, k) + [I(BranchUnless(e)), I(Jump(t))]
  }

  /** The label an instruction jumps to. */
  function Target(i: Insn): (r: Option<nat>) {
    match i
    case Jump(l) => Some(l)
    case BranchIf(l) => Some(l)
    case BranchUnless(l) => Some(l)
    case _ => None
  }

  /** A whole list: the program's value is what leave returns. */
  function Compile(n: Node): Code {
    Lower(n, false, NoLoop, 0) + [I(Leave)]
  }

  // ----- the definitions one level deep, for proofs that must not unfold further -----

  lemma AsgnParts(n: Node, inLoop: bool)
    requires n.LAsgn? && WellFormed(n, inLoop)
    ensures WellFormed(n.value, inLoop) && Labels(n) == Labels(n.value)
  {
    hide CondLabels;
  }

  lemma AsgnShape(n: Node, poped: bool, ctx: Loop, k: nat)
    requires n.LAsgn?
    ensures Lower(n, poped, ctx, k) == Lower(n.value, false, ctx, k) + (Unless(poped, [I(Dup)]) + [I(SetLocal(n.i))])
  {
    hide LowerCond, CondLabels, Labels;
  }

  lemma BlockParts(n: Node, inLoop: bool)
    requires n.Block? && WellFormed(n, inLoop)
    ensures WellFormed(n.head, inLoop) && WellFormed(n.next, inLoop) && (n.next.Block? || n.next.Absent?)
    ensures Labels(n) == Labels(n.head) + Labels(n.next) && (n.next.Absent? ==> Labels(n.next) == 0)
  {
    hide CondLabels;
  }

  lemma BlockShape(n: Node, poped: bool, ctx: Loop, k: nat)
    requires n.Block?
    ensures n.next.Absent? ==> Lower(n, poped, ctx, k) == Lower(n.head, poped, ctx, k)
    ensures !n.next.Absent? ==>
              Lower(n, poped, ctx, k) == Lower(n.head, true, ctx, k) + Lower(n.next, poped, ctx, k + Labels(n.head))
  {
    hide LowerCond, CondLabels, Labels;
  }

  /** A node without parts, and the instruction that pushes it. */
  predicate Simple(n: Node) {
    n.Absent? || n.NilLit? || n.TrueLit? || n.FalseLit? || n.Lit? || n.LVar?
  }

  function Leaf(n: Node): (r: Insn)
    requires Simple(n)
    ensures Target(r) == None
  {
    match n
    case Absent => PutNil
    case NilLit => PutNil
    case TrueLit => PutObject(TrueV)
    case FalseLit => PutObject(FalseV)
    case Lit(x) => PutObject(Obj(x))
    case LVar(i) => GetLocal(i)
  }

  lemma LeafShape(n: Node, poped: bool, ctx: Loop, k: nat)
    requires Simple(n)
    ensures Labels(n) == 0 && Lower(n, poped, ctx, k) == Unless(poped, [I(Leaf(n))])
  {
    hide LowerCond, CondLabels;
  }

  lemma IfParts(n: Node, inLoop: bool)
    requires n.If? && WellFormed(n, inLoop)
    ensures WellFormed(n.cond, inLoop) && WellFormed(n.body, inLoop) && WellFormed(n.els, inLoop)
    ensures Labels(n) == 3 + CondLabels(n.cond) + Labels(n.body) + Labels(n.els)
  {
    hide CondLabels;
  }

  lemma IfShape(n: Node, poped: bool, ctx: Loop, k: nat)
    requires n.If?
    ensures var k1 := k + 3 + CondLabels(n.cond);
            Lower(n, poped, ctx, k) == LowerCond(n.cond, k, k + 1, ctx, k + 3)
                                       + Fork(k, Lower(n.body, poped, ctx, k1),
                                              Lower(n.els, poped, ctx, k1 + Labels(n.body)))
  {
    hide LowerCond, CondLabels, Labels, Fork;
  }

  /** The branch a short-circuit operator takes past its second operand. */
  function Around(n: Node, k: nat): Elem
    requires n.And? || n.Or?
  {
    if n.And? then I(BranchUnless(k)) else I(BranchIf(k))
  }

  lemma ShortParts(n: Node, inLoop: bool)
    requires (n.And? || n.Or?) && WellFormed(n, inLoop)
    ensures WellFormed(n.a, inLoop) && WellFormed(n.b, inLoop)
    ensures Labels(n) == 1 + Labels(n.a) + Labels(n.b) && CondLabels(n) == 1 + CondLabels(n.a) + CondLabels(n.b)
  {
    if n.And? {} else {}
  }

  lemma ShortShape(n: Node, poped: bool, ctx: Loop, k: nat)
    requires n.And? || n.Or?
    ensures Lower(n, poped, ctx, k)
            == Lower(n.a, false, ctx, k + 1)
                + Short(k, Around(n, k), poped, Lower(n.b, poped, ctx, k + 1 + Labels(n.a)))
  {
    hide LowerCond, CondLabels, Labels, Short;
    if n.And? {} else {}
  }

  lemma WhileParts(n: Node, inLoop: bool)
    requires n.While? && WellFormed(n, inLoop)
    ensures WellFormed(n.cond, true) && WellFormed(n.body, true)
    ensures Labels(n) == Own(n) + Labels(n.body) + CondLabels(n.cond)
  {
    hide CondLabels;
  }

  lemma WhileShape(n: Node, poped: bool, ctx: Loop, k: nat)
    requires n.While?
    ensures Lower(n, poped, ctx, k)
            == LoopHead(k, n.testFirst)
               + (Lower(n.body, true, Inside(k), k + Own(n))
                  + ([L(k)]
                     + (LowerCond(n.cond, Onward(n, k, true), Onward(n, k, false), Inside(k),
                                  k + Own(n) + Labels(n.body))
                        + LoopTail(k, poped))))
  {
    hide LowerCond, Labels, CondLabels, LoopHead, LoopTail, Inside, Own, Onward;
  }

  lemma BreakParts(n: Node, inLoop: bool)
    requires n.Break? && WellFormed(n, inLoop)
    ensures inLoop && WellFormed(n.value, true) && Labels(n) == 1 + Labels(n.value)
  {
    hide CondLabels;
  }

  lemma BreakShape(n: Node, poped: bool, ctx: Loop, k: nat)
    requires n.Break? && ctx.InLoop?
    ensures Lower(n, poped, ctx, k)
            == [L(k), Adj(ctx.redo, true)]
               + (Lower(n.value, false, ctx, k + 1) + ([I(Jump(ctx.brk)), Adj(k, false)] + Unless(poped, [I(PutNil)])))
  {
    hide LowerCond, CondLabels, Labels;
  }

  /** Where the first operand of a short-circuit condition goes; label k stands between the two. */
  function First(c: Node, dest: nat, holds: bool, k: nat): nat
    requires c.And? || c.Or?
  {
    if c.And? == holds then k else dest
  }

  lemma PairShape(c: Node, t: nat, e: nat, ctx: Loop, k: nat)
    requires c.And? || c.Or?
    ensures LowerCond(c, t, e, ctx, k)
            == LowerCond(c.a, First(c, t, true, k), First(c, e, false, k), ctx, k + 1)
               + ([L(k)] + LowerCond(c.b, t, e, ctx, k + 1 + CondLabels(c.a)))
  {
    hide Lower, Labels, CondLabels;
    if c.And? {} else {}
  }

  /** A condition that is neither decided nor short-circuit is evaluated and tested. */
  ghost predicate Tested(c: Node) {
    !(c.And? || c.Or? || c.Lit? || c.TrueLit? || c.FalseLit? || c.NilLit?)
  }

  lemma TestedShape(c: Node, t: nat, e: nat, ctx: Loop, k: nat)
    requires Tested(c)
    ensures CondLabels(c) == Labels(c)
    ensures LowerCond(c, t, e, ctx, k) == Lower(c, false, ctx, k) + [I(BranchUnless(e)), I(Jump(t))]
  {
    hide Lower, Labels;
  }

  // ----- labels -----

  /** How often label l is placed in the list. */
  function Defs(c: Code, l: nat): nat
    decreases |c|
  {
    if c == [] then 0 else (if c[0] == L(l) then 1 else 0) + Defs(c[1..], l)
  }

  /** How often label l is jumped to. */
  function Refs(c: Code, l: nat): nat
    decreases |c|
  {
    if c == [] then 0 else (if c[0].I? && Target(c[0].insn) == Some(l) then 1 else 0) + Refs(c[1..], l)
  }

  lemma {:induction false} CountConcat(a: Code, b: Code, l: nat)
    ensures Defs(a + b, l) == Defs(a, l) + Defs(b, l)
    ensures Refs(a + b, l) == Refs(a, l) + Refs(b, l)
    decreases |a|
  {
    if a == [] {
      assert a + b == b;
    } else {
      assert (a + b)[1..] == a[1..] + b;
      CountConcat(a[1..], b, l);
    }
  }

  lemma CountOne(e: Elem, l: nat)
    ensures Defs([e], l) == (if e == L(l) then 1 else 0)
    ensures Refs([e], l) == (if e.I? && Target(e.insn) == Some(l) then 1 else 0)
  {
    assert [e][1..] == [];
    assert Defs([], l) == 0 && Refs([], l) == 0;
  }

  lemma CountTwo(e: Elem, f: Elem, l: nat)
    ensures Defs([e, f], l) == Defs([e], l) + Defs([f], l)
    ensures Refs([e, f], l) == Refs([e], l) + Refs([f], l)
  {
    assert [e, f] == [e] + [f];
    CountConcat([e], [f], l);
  }

  /** 1 when l is one of the n labels from k on. */
  function In(l: nat, k: nat, n: nat): nat {
    if k <= l < k + n then 1 else 0
  }

  /** Lowering a node places each of its own labels exactly once and no other, and jumps only to
      its own labels and to where break goes. */
  lemma {:induction false} LabelsOnce(n: Node, poped: bool, ctx: Loop, k: nat, l: nat)
    requires WellFormed(n, ctx.InLoop?)
    ensures Defs(Lower(n, poped, ctx, k), l) == In(l, k, Labels(n))
    ensures In(l, k, Labels(n)) == 0 && !(ctx.InLoop? && l == ctx.brk) ==> Refs(Lower(n, poped, ctx, k), l) == 0
    decreases n, 0, 1
  {
    hide Defs, Refs, Lower, LowerCond, Labels, CondLabels, WellFormed;
    match n
    case LAsgn(i, value) =>
      AsgnParts(n, ctx.InLoop?);
      AsgnShape(n, poped, ctx, k);
      LabelsOnce(value, false, ctx, k, l);
      CountConcat(Lower(value, false, ctx, k), Unless(poped, [I(Dup)]) + [I(SetLocal(i))], l);
      CountConcat(Unless(poped, [I(Dup)]), [I(SetLocal(i))], l);
      CountOpt(poped, I(Dup), l);
      CountOne(I(SetLocal(i)), l);
    case Block(head, next) =>
      BlockParts(n, ctx.InLoop?);
      BlockShape(n, poped, ctx, k);
      LabelsOnce(head, if next.Absent? then poped else true, ctx, k, l);
      if !next.Absent? {
        LabelsOnce(next, poped, ctx, k + Labels(head), l);
        CountConcat(Lower(head, true, ctx, k), Lower(next, poped, ctx, k + Labels(head)), l);
      }
    case If(_, _, _) => IfLabels(n, poped, ctx, k, l);
    case And(_, _) => ShortLabels(n, poped, ctx, k, l);
    case Or(_, _) => ShortLabels(n, poped, ctx, k, l);
    case While(_, _, _, _) => WhileLabels(n, poped, ctx, k, l);
    case Break(value) => BreakLabels(n, poped, ctx, k, l);
    case _ =>
      LeafShape(n, poped, ctx, k);
      CountOpt(poped, I(Leaf(n)), l);
  }

  lemma CountOpt(poped: bool, e: Elem, l: nat)
    ensures Defs(Unless(poped, [e]), l) == (if !poped && e == L(l) then 1 else 0)
    ensures Refs(Unless(poped, [e]), l) == (if !poped && e.I? && Target(e.insn) == Some(l) then 1 else 0)
  {
    CountOne(e, l);
    assert Defs([], l) == 0 && Refs([], l) == 0;
  }

  lemma {:induction false} CondLabelsOnce(c: Node, t: nat, e: nat, ctx: Loop, k: nat, l: nat)
    requires WellFormed(c, ctx.InLoop?)
    ensures Defs(LowerCond(c, t, e, ctx, k), l) == In(l, k, CondLabels(c))
    ensures In(l, k, CondLabels(c)) == 0 && !(ctx.InLoop? && l == ctx.brk) && l != t && l != e ==>
              Refs(LowerCond(c, t, e, ctx, k), l) == 0
    decreases c, 1
  {
    hide Defs, Refs;
    match c
    case And(_, _) => PairLabels(c, t, e, ctx, k, l);
    case Or(_, _) => PairLabels(c, t, e, ctx, k, l);
    case Lit(_) => CountOne(I(Jump(t)), l);
    case TrueLit => CountOne(I(Jump(t)), l);
    case FalseLit => CountOne(I(Jump(e)), l);
    case NilLit => CountOne(I(Jump(e)), l);
    case _ =>
      LabelsOnce(c, false, ctx, k, l);
      CountConcat(Lower(c, false, ctx, k), [I(BranchUnless(e)), I(Jump(t))], l);
      CountTwo(I(BranchUnless(e)), I(Jump(t)), l);
      CountOne(I(BranchUnless(e)), l);
      CountOne(I(Jump(t)), l);
  }

  lemma {:induction false} PairLabels(c: Node, t: nat, e: nat, ctx: Loop, k: nat, l: nat)
    requires (c.And? || c.Or?) && WellFormed(c, ctx.InLoop?)
    ensures Defs(LowerCond(c, t, e, ctx, k), l) == In(l, k, CondLabels(c))
    ensures In(l, k, CondLabels(c)) == 0 && !(ctx.InLoop? && l == ctx.brk) && l != t && l != e ==>
              Refs(LowerCond(c, t, e, ctx, k), l) == 0
    decreases c, 0
  {
    hide Lower, LowerCond, Labels, CondLabels, WellFormed, Defs, Refs;
    ShortParts(c, ctx.InLoop?);
    PairShape(c, t, e, ctx, k);
    var a, b, t1, e1 := c.a, c.b, First(c, t, true, k), First(c, e, false, k);
    var first := LowerCond(a, t1, e1, ctx, k + 1);
    var second := LowerCond(b, t, e, ctx, k + 1 + CondLabels(a));
    CondLabelsOnce(a, t1, e1, ctx, k + 1, l);
    CondLabelsOnce(b, t, e, ctx, k + 1 + CondLabels(a), l);
    CountConcat(first, [L(k)] + second, l);
    CountConcat([L(k)], second, l);
    CountOne(L(k), l);
  }

  lemma {:induction false} IfLabels(n: Node, poped: bool, ctx: Loop, k: nat, l: nat)
    requires n.If? && WellFormed(n, ctx.InLoop?)
    ensures Defs(Lower(n, poped, ctx, k), l) == In(l, k, Labels(n))
    ensures In(l, k, Labels(n)) == 0 && !(ctx.InLoop? && l == ctx.brk) ==> Refs(Lower(n, poped, ctx, k), l) == 0
    decreases n, 0, 0
  {
    hide Lower, LowerCond, Labels, CondLabels, WellFormed, Defs, Refs;
    IfParts(n, ctx.InLoop?);
    IfShape(n, poped, ctx, k);
    var k1 := k + 3 + CondLabels(n.cond);
    var c0 := LowerCond(n.cond, k, k + 1, ctx, k + 3);
    var c1, c2 := Lower(n.body, poped, ctx, k1), Lower(n.els, poped, ctx, k1 + Labels(n.body));
    var mid := [I(Jump(k + 2)), L(k + 1)];
    CondLabelsOnce(n.cond, k, k + 1, ctx, k + 3, l);
    LabelsOnce(n.body, poped, ctx, k1, l);
    LabelsOnce(n.els, poped, ctx, k1 + Labels(n.body), l);
    CountConcat(c0, Fork(k, c1, c2), l);
    CountConcat([L(k)], c1 + (mid + (c2 + [L(k + 2)])), l);
    CountConcat(c1, mid + (c2 + [L(k + 2)]), l);
    CountConcat(mid, c2 + [L(k + 2)], l);
    CountConcat(c2, [L(k + 2)], l);
    CountTwo(I(Jump(k + 2)), L(k + 1), l);
    CountOne(I(Jump(k + 2)), l);
    CountOne(L(k), l);
    CountOne(L(k + 1), l);
    CountOne(L(k + 2), l);
  }

  lemma {:induction false} ShortLabels(n: Node, poped: bool, ctx: Loop, k: nat, l: nat)
    requires (n.And? || n.Or?) && WellFormed(n, ctx.InLoop?)
    ensures Defs(Lower(n, poped, ctx, k), l) == In(l, k, Labels(n))
    ensures In(l, k, Labels(n)) == 0 && !(ctx.InLoop? && l == ctx.brk) ==> Refs(Lower(n, poped, ctx, k), l) == 0
    decreases n, 0, 0
  {
    hide Lower, LowerCond, Labels, CondLabels, WellFormed, Defs, Refs;
    ShortParts(n, ctx.InLoop?);
    ShortShape(n, poped, ctx, k);
    var a, b, br := n.a, n.b, Around(n, k);
    var c1, c2 := Lower(a, false, ctx, k + 1), Lower(b, poped, ctx, k + 1 + Labels(a));
    var x, y := Unless(poped, [I(Dup)]), Unless(poped, [I(Pop)]);
    LabelsOnce(a, false, ctx, k + 1, l);
    LabelsOnce(b, poped, ctx, k + 1 + Labels(a), l);
    CountConcat(c1, Short(k, br, poped, c2), l);
    CountConcat(x, [br] + (y + (c2 + [L(k)])), l);
    CountConcat([br], y + (c2 + [L(k)]), l);
    CountConcat(y, c2 + [L(k)], l);
    CountConcat(c2, [L(k)], l);
    CountOpt(poped, I(Dup), l);
    CountOpt(poped, I(Pop), l);
    CountOne(br, l);
    CountOne(L(k), l);
  }

  lemma HeadLabels(k: nat, testFirst: bool, l: nat)
    ensures var n := if testFirst then 5 else 6;
            && Defs(LoopHead(k, testFirst), l) == In(l, k, n) - In(l, k, 1) - In(l, k + 2, 2)
            && (l != k && (testFirst || l != k + 5) ==> Refs(LoopHead(k, testFirst), l) == 0)
  {
    hide Defs, Refs;
    var x := if testFirst then k else k + 5;
    var a, b, c := [I(Jump(x)), I(PutNil)], [L(k + 4), I(Pop)], [I(Jump(k))];
    assert LoopHead(k, testFirst) == a + (b + (c + (Unless(testFirst, [L(k + 5)]) + [L(k + 1)])));
    CountConcat(a, b + (c + (Unless(testFirst, [L(k + 5)]) + [L(k + 1)])), l);
    CountConcat(b, c + (Unless(testFirst, [L(k + 5)]) + [L(k + 1)]), l);
    CountConcat(c, Unless(testFirst, [L(k + 5)]) + [L(k + 1)], l);
    CountConcat(Unless(testFirst, [L(k + 5)]), [L(k + 1)], l);
    CountOpt(testFirst, L(k + 5), l);
    CountTwo(I(Jump(x)), I(PutNil), l);
    CountTwo(L(k + 4), I(Pop), l);
    CountOne(I(Jump(x)), l);
    CountOne(I(PutNil), l);
    CountOne(L(k + 4), l);
    CountOne(I(Pop), l);
    CountOne(I(Jump(k)), l);
    CountOne(L(k + 1), l);
  }

  lemma TailLabels(k: nat, poped: bool, l: nat)
    ensures Defs(LoopTail(k, poped), l) == In(l, k + 2, 2)
    ensures Refs(LoopTail(k, poped), l) == 0
  {
    hide Defs, Refs;
    var a, b, c := [L(k + 3), I(PutNil)], [L(k + 2)], Unless(!poped, [I(Pop)]);
    assert LoopTail(k, poped) == a + (b + c);
    CountConcat(a, b + c, l);
    CountConcat(b, c, l);
    CountOpt(!poped, I(Pop), l);
    CountTwo(L(k + 3), I(PutNil), l);
    CountOne(L(k + 3), l);
    CountOne(I(PutNil), l);
    CountOne(L(k + 2), l);
  }

  lemma {:induction false} WhileLabels(n: Node, poped: bool, ctx: Loop, k: nat, l: nat)
    requires n.While? && WellFormed(n, ctx.InLoop?)
    ensures Defs(Lower(n, poped, ctx, k), l) == In(l, k, Labels(n))
    ensures In(l, k, Labels(n)) == 0 && !(ctx.InLoop? && l == ctx.brk) ==> Refs(Lower(n, poped, ctx, k), l) == 0
    decreases n, 0, 0
  {
    hide Lower, LowerCond, Labels, CondLabels, WellFormed, Defs, Refs, LoopHead, LoopTail;
    WhileParts(n, ctx.InLoop?);
    WhileShape(n, poped, ctx, k);
    var k1, inner, t, e := k + Own(n), Inside(k), Onward(n, k, true), Onward(n, k, false);
    var head, c1 := LoopHead(k, n.testFirst), Lower(n.body, true, inner, k1);
    var c2, tail := LowerCond(n.cond, t, e, inner, k1 + Labels(n.body)), LoopTail(k, poped);
    LabelsOnce(n.body, true, inner, k1, l);
    CondLabelsOnce(n.cond, t, e, inner, k1 + Labels(n.body), l);
    HeadLabels(k, n.testFirst, l);
    TailLabels(k, poped, l);
    CountConcat(head, c1 + ([L(k)] + (c2 + tail)), l);
    CountConcat(c1, [L(k)] + (c2 + tail), l);
    CountConcat([L(k)], c2 + tail, l);
    CountConcat(c2, tail, l);
    CountOne(L(k), l);
  }

  lemma {:induction false} BreakLabels(n: Node, poped: bool, ctx: Loop, k: nat, l: nat)
    requires n.Break? && WellFormed(n, ctx.InLoop?)
    ensures Defs(Lower(n, poped, ctx, k), l) == In(l, k, Labels(n))
    ensures In(l, k, Labels(n)) == 0 && !(ctx.InLoop? && l == ctx.brk) ==> Refs(Lower(n, poped, ctx, k), l) == 0
    decreases n, 0, 0
  {
    hide Lower, LowerCond, Labels, CondLabels, WellFormed, Defs, Refs;
    BreakParts(n, ctx.InLoop?);
    BreakShape(n, poped, ctx, k);
    var a, c1 := [L(k), Adj(ctx.redo, true)], Lower(n.value, false, ctx, k + 1);
    var b, c := [I(Jump(ctx.brk)), Adj(k, false)], Unless(poped, [I(PutNil)]);
    LabelsOnce(n.value, false, ctx, k + 1, l);
    CountConcat(a, c1 + (b + c), l);
    CountConcat(c1, b + c, l);
    CountConcat(b, c, l);
    CountOpt(poped, I(PutNil), l);
    CountTwo(L(k), Adj(ctx.redo, true), l);
    CountTwo(I(Jump(ctx.brk)), Adj(k, false), l);
    CountOne(L(k), l);
    CountOne(Adj(ctx.redo, true), l);
    CountOne(I(Jump(ctx.brk)), l);
    CountOne(Adj(k, false), l);
  }

  // ----- finding a label -----

  /** Where label l is placed. */
  function Find(c: Code, l: nat): (q: nat)
    ensures q <= |c|
    decreases |c|
  {
    if c == [] || c[0] == L(l) then 0 else 1 + Find(c[1..], l)
  }

  lemma {:induction false} FindPlaced(c: Code, l: nat)
    ensures Find(c, l) < |c| <==> Defs(c, l) > 0
    ensures Find(c, l) < |c| ==> c[Find(c, l)] == L(l)
    decreases |c|
  {
    if c != [] && c[0] != L(l) { FindPlaced(c[1..], l); }
  }

  /** A label placed only once is where it is seen. */
  lemma {:induction false} FindOnce(c: Code, l: nat, q: nat)
    requires Defs(c, l) <= 1 && q < |c| && c[q] == L(l)
    ensures Find(c, l) == q
    decreases |c|
  {
    if q > 0 {
      assert c[1..][q - 1] == c[q];
      FindOnce(c[1..], l, q - 1);
      FindPlaced(c[1..], l);
    }
  }

  lemma {:induction false} RefCounts(code: Code, l: nat, j: nat)
    requires j < |code| && code[j].I? && Target(code[j].insn) == Some(l)
    ensures Refs(code, l) > 0
    decreases |code|
  {
    if j > 0 { RefCounts(code[1..], l, j - 1); }
  }

  /** In a compiled program no label is placed twice, and every label jumped to is placed. */
  lemma CompileLabels(n: Node, l: nat)
    requires WellFormed(n, false)
    ensures Defs(Compile(n), l) <= 1 && (Refs(Compile(n), l) > 0 ==> Defs(Compile(n), l) == 1)
  {
    hide Lower, Labels, WellFormed, Defs, Refs;
    LabelsOnce(n, false, NoLoop, 0, l);
    CountConcat(Lower(n, false, NoLoop, 0), [I(Leave)], l);
    CountOne(I(Leave), l);
  }
}
