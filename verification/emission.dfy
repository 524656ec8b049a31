/** iseq_compile_each and compile_branch_condition as they run: element lists that grow at their end,
    a label counter, and the labels of the enclosing loop saved and restored around a loop. */
module Emission {
  import opened Nodes
  import opened Options
  import opened Lowering

  /** LINK_ANCHOR, by the elements linked behind it. */
  class Anchor {
    var elems: Code

    constructor ()
      ensures elems == []
    {
      elems := [];
    }

    /** ADD_ELEM */
    method Add(e: Elem)
      modifies this
      ensures elems == old(elems) + [e]
    {
      elems := elems + [e];
    }

    /** ADD_SEQ */
    method AddSeq(other: Anchor)
      modifies this
      ensures elems == old(elems) + old(other.elems)
    {
      elems := elems + other.elems;
    }
  }

  class Compiler {
    /** The next label's number. */
    var count: nat
    var loop: Loop

    constructor ()
      ensures count == 0 && loop == NoLoop
    {
      count, loop := 0, NoLoop;
    }

    /** NEW_LABEL */
    method NewLabel() returns (l: nat)
      modifies this`count
      ensures l == old(count) && count == l + 1
    {
      l := count;
      count := count + 1;
    }

    /** Appends exactly the lowered form of a node, numbering its labels on from the last. */
    method Each(ret: Anchor, n: Node, poped: bool)
      requires WellFormed(n, loop.InLoop?)
      modifies this, ret
      ensures loop == old(loop) && count == old(count) + Labels(n)
      ensures ret.elems == old(ret.elems) + Lower(n, poped, loop, old(count))
      decreases n, 1
    {
      hide Lower, LowerCond, WellFormed, Labels, CondLabels;
      if Simple(n) { LeafShape(n, poped, loop, count); }
      match n {
        case Block(_, _) => EachBlock(ret, n, poped);
        case If(_, _, _) => EachIf(ret, n, poped);
        case While(_, _, _, _) => EachLoop(ret, n, poped);
        case Break(_) => EachBreak(ret, n, poped);
        case And(_, _) => EachShort(ret, n, poped);
        case Or(_, _) => EachShort(ret, n, poped);
        case LAsgn(i, value) =>
          AsgnParts(n, loop.InLoop?);
          AsgnShape(n, poped, loop, count);
          Each(ret, value, false);
          if !poped { ret.Add(I(Dup)); }
          ret.Add(I(SetLocal(i)));
        case Absent => if !poped { ret.Add(I(PutNil)); }
        case NilLit => if !poped { ret.Add(I(PutNil)); }
        case TrueLit => if !poped { ret.Add(I(PutObject(TrueV))); }
        case FalseLit => if !poped { ret.Add(I(PutObject(FalseV))); }
        case Lit(x) => if !poped { ret.Add(I(PutObject(Obj(x)))); }
        case LVar(i) => if !poped { ret.Add(I(GetLocal(i))); }
      }
    }

    /** A block list is walked cell by cell; only the last one may leave its value. */
    method EachBlock(ret: Anchor, n: Node, poped: bool)
      requires n.Block? && WellFormed(n, loop.InLoop?)
      modifies this, ret
      ensures loop == old(loop) && count == old(count) + Labels(n)
      ensures ret.elems == old(ret.elems) + Lower(n, poped, loop, old(count))
      decreases n, 0
    {
      hide Lower, LowerCond, Labels, CondLabels, WellFormed;
      var node := n;
      while node.Block?
        invariant loop == old(loop) && WellFormed(node, loop.InLoop?) && (node.Block? || node.Absent?)
        invariant n nonincreases to node
        invariant count + (if node.Block? then Labels(node) else 0) == old(count) + Labels(n)
        invariant ret.elems + (if node.Block? then Lower(node, poped, loop, count) else [])
                  == old(ret.elems) + Lower(n, poped, loop, old(count))
        decreases node
      {
        BlockStep(node, poped, loop, count);
        Each(ret, node.head, !node.next.Absent? || poped);
        node := node.next;
      }
    }

    method EachIf(ret: Anchor, n: Node, poped: bool)
      requires n.If? && WellFormed(n, loop.InLoop?)
      modifies this, ret
      ensures loop == old(loop) && count == old(count) + Labels(n)
      ensures ret.elems == old(ret.elems) + Lower(n, poped, loop, old(count))
      decreases n, 0
    {
      hide Lower, LowerCond, Labels, CondLabels, WellFormed, Fork;
      IfParts(n, loop.InLoop?);
      IfShape(n, poped, loop, count);
      var condSeq := new Anchor();
      var thenSeq := new Anchor();
      var elseSeq := new Anchor();
      var thenLabel := NewLabel();
      var elseLabel := NewLabel();
      var endLabel := NewLabel();
      BranchCondition(condSeq, n.cond, thenLabel, elseLabel);
      Each(thenSeq, n.body, poped);
      Each(elseSeq, n.els, poped);

      ghost var k := thenLabel;
      assert condSeq.elems == LowerCond(n.cond, k, k + 1, loop, k + 3);
      assert thenSeq.elems == Lower(n.body, poped, loop, k + 3 + CondLabels(n.cond));
      assert elseSeq.elems == Lower(n.els, poped, loop, k + 3 + CondLabels(n.cond) + Labels(n.body));
      Splice(ret, condSeq, thenSeq, elseSeq, thenLabel, elseLabel, endLabel);
    }

    /** The three lists of a conditional put together. */
    method Splice(ret: Anchor, condSeq: Anchor, thenSeq: Anchor, elseSeq: Anchor,
                  thenLabel: nat, elseLabel: nat, endLabel: nat)
      requires ret !in {condSeq, thenSeq, elseSeq} && elseLabel == thenLabel + 1 && endLabel == thenLabel + 2
      modifies ret
      ensures ret.elems == old(ret.elems) + (condSeq.elems + Fork(thenLabel, thenSeq.elems, elseSeq.elems))
    {
      ForkInPlace(ret.elems, thenLabel, condSeq.elems, thenSeq.elems, elseSeq.elems);
      hide Fork;
      ret.AddSeq(condSeq);
      ret.Add(L(thenLabel));
      ret.AddSeq(thenSeq);
      ret.Add(I(Jump(endLabel)));
      ret.Add(L(elseLabel));
      ret.AddSeq(elseSeq);
      ret.Add(L(endLabel));
    }

    method EachShort(ret: Anchor, n: Node, poped: bool)
      requires (n.And? || n.Or?) && WellFormed(n, loop.InLoop?)
      modifies this, ret
      ensures loop == old(loop) && count == old(count) + Labels(n)
      ensures ret.elems == old(ret.elems) + Lower(n, poped, loop, old(count))
      decreases n, 0
    {
      hide Lower, LowerCond, Labels, CondLabels, WellFormed;
      ShortParts(n, loop.InLoop?);
      ShortShape(n, poped, loop, count);
      hide Short;
      ghost var k, before := count, ret.elems;
      var endLabel := NewLabel();
      Each(ret, n.a, false);
      ghost var c1, c2 := Lower(n.a, false, loop, k + 1), Lower(n.b, poped, loop, k + 1 + Labels(n.a));
      Skip(ret, n, poped, endLabel);
      Each(ret, n.b, poped);
      ShortInPlace(before, c1, k, Around(n, k), poped, c2);
      ret.Add(L(endLabel));
    }

    /** The branch past the second operand, with the value of the first kept for it. */
    method Skip(ret: Anchor, n: Node, poped: bool, endLabel: nat)
      requires n.And? || n.Or?
      modifies ret
      ensures ret.elems == ((old(ret.elems) + Unless(poped, [I(Dup)])) + [Around(n, endLabel)])
              + Unless(poped, [I(Pop)])
    {
      if !poped { ret.Add(I(Dup)); }
      if n.And? { ret.Add(I(BranchUnless(endLabel))); } else { ret.Add(I(BranchIf(endLabel))); }
      if !poped { ret.Add(I(Pop)); }
    }

    method EachLoop(ret: Anchor, n: Node, poped: bool)
      requires n.While? && WellFormed(n, loop.InLoop?)
      modifies this, ret
      ensures loop == old(loop) && count == old(count) + Labels(n)
      ensures ret.elems == old(ret.elems) + Lower(n, poped, loop, old(count))
      decreases n, 0
    {
      hide Lower, LowerCond, Labels, CondLabels, WellFormed, LoopHead, LoopTail;
      WhileParts(n, loop.InLoop?);
      WhileShape(n, poped, loop, count);
      var prevLoop, nextLabel := loop, count;
      ghost var k, inner, before := count, Inside(count), ret.elems;
      ghost var c1 := Lower(n.body, true, inner, k + Own(n));
      ghost var c2 := LowerCond(n.cond, Onward(n, k, true), Onward(n, k, false), inner, k + Own(n) + Labels(n.body));
      LoopInPlace(before, LoopHead(k, n.testFirst), c1, [L(k)], c2, LoopTail(k, poped));
      OpenLoop(ret, n.testFirst);
      Each(ret, n.body, true);
      ret.Add(L(nextLabel));
      if n.until {
        BranchCondition(ret, n.cond, nextLabel + 3, loop.redo);
      } else {
        BranchCondition(ret, n.cond, loop.redo, nextLabel + 3);
      }
      assert ret.elems == (((before + LoopHead(k, n.testFirst)) + c1) + [L(k)]) + c2;
      CloseLoop(ret, nextLabel, poped);
      loop := prevLoop;
    }

    /** New labels for next, redo, break, end and the catch of next; the code in front of the body. */
    method OpenLoop(ret: Anchor, testFirst: bool)
      modifies this, ret
      ensures loop == Inside(old(count)) && count == old(count) + if testFirst then 5 else 6
      ensures ret.elems == old(ret.elems) + LoopHead(old(count), testFirst)
    {
      var nextLabel := NewLabel();
      var redoLabel := NewLabel();
      var breakLabel := NewLabel();
      var endLabel := NewLabel();
      var nextCatchLabel := NewLabel();
      loop := InLoop(redoLabel, breakLabel);
      var tmpLabel := 0;
      if testFirst {
        ret.Add(I(Jump(nextLabel)));
      } else {
        tmpLabel := NewLabel();
        ret.Add(I(Jump(tmpLabel)));
      }
      ret.Add(I(PutNil));
      ret.Add(L(nextCatchLabel));
      ret.Add(I(Pop));
      ret.Add(I(Jump(nextLabel)));
      if !testFirst { ret.Add(L(tmpLabel)); }
      ret.Add(L(redoLabel));
    }

    method CloseLoop(ret: Anchor, nextLabel: nat, poped: bool)
      modifies ret
      ensures ret.elems == old(ret.elems) + LoopTail(nextLabel, poped)
    {
      ret.Add(L(nextLabel + 3));
      ret.Add(I(PutNil));
      ret.Add(L(nextLabel + 2));
      if poped { ret.Add(I(Pop)); }
    }

    method EachBreak(ret: Anchor, n: Node, poped: bool)
      requires n.Break? && WellFormed(n, loop.InLoop?)
      modifies this, ret
      ensures loop == old(loop) && count == old(count) + Labels(n)
      ensures ret.elems == old(ret.elems) + Lower(n, poped, loop, old(count))
      decreases n, 0
    {
      hide Lower, LowerCond, Labels, CondLabels, WellFormed;
      BreakParts(n, loop.InLoop?);
      BreakShape(n, poped, loop, count);
      var spLabel := NewLabel();
      ret.Add(L(spLabel));
      ret.Add(Adj(loop.redo, true));
      Each(ret, n.value, false);
      ret.Add(I(Jump(loop.brk)));
      ret.Add(Adj(spLabel, false));
      if !poped { ret.Add(I(PutNil)); }
    }

    method BranchCondition(ret: Anchor, cond: Node, thenLabel: nat, elseLabel: nat)
      requires WellFormed(cond, loop.InLoop?)
      modifies this, ret
      ensures loop == old(loop) && count == old(count) + CondLabels(cond)
      ensures ret.elems == old(ret.elems) + LowerCond(cond, thenLabel, elseLabel, loop, old(count))
      decreases cond, 3
    {
      match cond {
        case And(_, _) => BranchPair(ret, cond, thenLabel, elseLabel);
        case Or(_, _) => BranchPair(ret, cond, thenLabel, elseLabel);
        case Lit(_) => ret.Add(I(Jump(thenLabel)));
        case TrueLit => ret.Add(I(Jump(thenLabel)));
        case FalseLit => ret.Add(I(Jump(elseLabel)));
        case NilLit => ret.Add(I(Jump(elseLabel)));
        case _ => BranchTest(ret, cond, thenLabel, elseLabel);
      }
    }

    method BranchTest(ret: Anchor, cond: Node, thenLabel: nat, elseLabel: nat)
      requires Tested(cond) && WellFormed(cond, loop.InLoop?)
      modifies this, ret
      ensures loop == old(loop) && count == old(count) + CondLabels(cond)
      ensures ret.elems == old(ret.elems) + LowerCond(cond, thenLabel, elseLabel, loop, old(count))
      decreases cond, 2
    {
      hide LowerCond, Lower, CondLabels, Labels, WellFormed;
      TestedShape(cond, thenLabel, elseLabel, loop, count);
      Each(ret, cond, false);
      ret.Add(I(BranchUnless(elseLabel)));
      ret.Add(I(Jump(thenLabel)));
    }

    method BranchPair(ret: Anchor, cond: Node, thenLabel: nat, elseLabel: nat)
      requires (cond.And? || cond.Or?) && WellFormed(cond, loop.InLoop?)
      modifies this, ret
      ensures loop == old(loop) && count == old(count) + CondLabels(cond)
      ensures ret.elems == old(ret.elems) + LowerCond(cond, thenLabel, elseLabel, loop, old(count))
      decreases cond, 1
    {
      hide Lower, LowerCond, Labels, CondLabels, WellFormed;
      ShortParts(cond, loop.InLoop?);
      PairShape(cond, thenLabel, elseLabel, loop, count);
      var middle := NewLabel();
      if cond.And? {
        BranchCondition(ret, cond.a, middle, elseLabel);
      } else {
        BranchCondition(ret, cond.a, thenLabel, middle);
      }
      ret.Add(L(middle));
      BranchCondition(ret, cond.b, thenLabel, elseLabel);
    }
  }

  lemma LoopInPlace(before: Code, head: Code, c1: Code, mid: Code, c2: Code, tail: Code)
    ensures ((((before + head) + c1) + mid) + c2) + tail == before + (head + (c1 + (mid + (c2 + tail))))
  {
  }

  lemma ShortInPlace(before: Code, c1: Code, k: nat, br: Elem, poped: bool, c2: Code)
    ensures (((((before + c1) + Unless(poped, [I(Dup)])) + [br]) + Unless(poped, [I(Pop)])) + c2) + [L(k)]
            == before + (c1 + Short(k, br, poped, c2))
  {
  }

  lemma ForkInPlace(before: Code, k: nat, c0: Code, c1: Code, c2: Code)
    ensures ((((((before + c0) + [L(k)]) + c1) + [I(Jump(k + 2))]) + [L(k + 1)]) + c2) + [L(k + 2)]
            == before + (c0 + Fork(k, c1, c2))
  {
  }

  lemma BlockStep(n: Node, poped: bool, ctx: Loop, k: nat)
    requires n.Block? && WellFormed(n, ctx.InLoop?)
    ensures WellFormed(n.head, ctx.InLoop?) && WellFormed(n.next, ctx.InLoop?) && (n.next.Block? || n.next.Absent?)
    ensures Labels(n) == Labels(n.head) + if n.next.Absent? then 0 else Labels(n.next)
    ensures Lower(n, poped, ctx, k)
            == Lower(n.head, !n.next.Absent? || poped, ctx, k)
               + if n.next.Absent? then [] else Lower(n.next, poped, ctx, k + Labels(n.head))
  {
    hide Lower, LowerCond, WellFormed, Labels, CondLabels;
    BlockParts(n, ctx.InLoop?);
    BlockShape(n, poped, ctx, k);
  }

  /** A whole program, as its list of elements. */
  method CompileProgram(n: Node) returns (code: Code)
    requires WellFormed(n, false)
    ensures code == Compile(n)
  {
    hide Lower, WellFormed;
    var compiler := new Compiler();
    var ret := new Anchor();
    compiler.Each(ret, n, false);
    ret.Add(I(Leave));
    code := ret.elems;
  }
}
