/** Running an element list on the stack machine, and why it computes what the tree means. */
module Machine {
  import opened Nodes
  import opened Options
  import opened Lowering
  import opened Depths

  datatype State = State(pc: nat, stack: seq<Value>, env: Env)

  /** What linking has recorded when it reaches position p. */
  function Depth(code: Code, p: nat): Rec
    requires p <= |code|
  {
    Fold(code[..p], Rec(0, map[]))
  }

  /** Control goes on behind the label. */
  function Land(code: Code, l: nat): nat { Find(code, l) + 1 }

  /** One instruction; None when it would underflow the stack, and for leave. */
  function Exec(i: Insn, code: Code, s: State): Option<State> {
    var top := |s.stack| - 1;
    match i
    case PutNil => Some(State(s.pc + 1, s.stack + [NilV], s.env))
    case PutObject(v) => Some(State(s.pc + 1, s.stack + [v], s.env))
    case GetLocal(x) => Some(State(s.pc + 1, s.stack + [Get(s.env, x)], s.env))
    case Jump(l) => Some(State(Land(code, l), s.stack, s.env))
    case Leave => None
    case Pop => if top < 0 then None else Some(State(s.pc + 1, s.stack[..top], s.env))
    case Dup => if top < 0 then None else Some(State(s.pc + 1, s.stack + [s.stack[top]], s.env))
    case SetLocal(x) => if top < 0 then None else Some(State(s.pc + 1, s.stack[..top], s.env[x := s.stack[top]]))
    case BranchIf(l) =>
      if top < 0 then None
      else Some(State(if Truthy(s.stack[top]) then Land(code, l) else s.pc + 1, s.stack[..top], s.env))
    case BranchUnless(l) =>
      if top < 0 then None
      else Some(State(if Truthy(s.stack[top]) then s.pc + 1 else Land(code, l), s.stack[..top], s.env))
  }

  /** An emitted adjustment pops the difference between the recorded depths. */
  function Step(code: Code, s: State): Option<State> {
    if s.pc >= |code| then None
    else match code[s.pc]
      case I(i) => Exec(i, code, s)
      case L(_) => Some(State(s.pc + 1, s.stack, s.env))
      case Adj(l, emits) =>
        if !emits then Some(State(s.pc + 1, s.stack, s.env))
        else
          var r := Depth(code, s.pc);
          var rest := |s.stack| - (r.sp - if l in r.sps then r.sps[l] else -1);
          if 0 <= rest <= |s.stack| then Some(State(s.pc + 1, s.stack[..rest], s.env)) else None
  }

  function Steps(code: Code, s: State, m: nat): Option<State>
    decreases m
  {
    if m == 0 then Some(s)
    else match Step(code, s)
      case None => None
      case Some(s1) => Steps(code, s1, m - 1)
  }

  /** The stack is as deep as linking recorded for this place. */
  predicate Agrees(code: Code, s: State) {
    s.pc < |code| && |s.stack| == Depth(code, s.pc).sp
  }

  /** m steps, as long as every state left behind agrees with the recorded depth. */
  function After(code: Code, s: State, m: nat): Option<State>
    decreases m
  {
    if m == 0 then Some(s)
    else if !Agrees(code, s) then None
    else match Step(code, s)
      case None => None
      case Some(s1) => After(code, s1, m - 1)
  }

  lemma {:induction false} AfterAdd(code: Code, s: State, m: nat, s1: State, j: nat)
    requires After(code, s, m) == Some(s1)
    ensures After(code, s, m + j) == After(code, s1, j)
    decreases m
  {
    hide Agrees, Step;
    if m > 0 { AfterAdd(code, Step(code, s).value, m - 1, s1, j); }
  }

  lemma {:induction false} AfterPrefix(code: Code, s: State, m: nat, j: nat)
    requires After(code, s, m).Some? && j <= m
    ensures After(code, s, j).Some? && Steps(code, s, j) == After(code, s, j)
    ensures j < m ==> Agrees(code, After(code, s, j).value)
    decreases j
  {
    hide Agrees, Step;
    if j > 0 { AfterPrefix(code, Step(code, s).value, m - 1, j - 1); }
  }

  // ----- places in a list -----

  /** The list c stands at position p. */
  ghost predicate Sits(code: Code, p: nat, c: Code) {
    p + |c| <= |code| && code[p..p + |c|] == c
  }

  lemma SitsParts(code: Code, p: nat, a: Code, b: Code)
    requires Sits(code, p, a + b)
    ensures Sits(code, p, a) && Sits(code, p + |a|, b)
  {
    var c := code[p..p + |a + b|];
    assert code[p..p + |a|] == c[..|a|];
    assert code[p + |a|..p + |a| + |b|] == c[|a|..];
  }

  lemma Enter(code: Code, p: nat, a: Code, b: Code)
    requires Sits(code, p, a + b)
    ensures Sits(code, p, a) && Sits(code, p + |a|, b)
    ensures Depth(code, p + |a|) == Fold(a, Depth(code, p))
  {
    hide Fold, Sits;
    SitsParts(code, p, a, b);
    SitsFront(code, p, a);
    Chain(code[..p], a, Rec(0, map[]));
  }

  lemma SitsFront(code: Code, p: nat, a: Code)
    requires Sits(code, p, a)
    ensures p + |a| <= |code| && code[..p + |a|] == code[..p] + a
  {
    assert code[..p + |a|] == code[..p] + code[p..p + |a|];
  }

  lemma EnterOne(code: Code, p: nat, e: Elem, b: Code)
    requires Sits(code, p, [e] + b)
    ensures p < |code| && code[p] == e && Sits(code, p + 1, b) && Depth(code, p + 1) == Record(e, Depth(code, p))
  {
    Enter(code, p, [e], b);
    hide Depth, Record;
    One(e, Depth(code, p));
    assert code[p] == code[p..p + 1][0];
  }

  /** No label is placed twice. */
  ghost predicate Distinct(code: Code) {
    forall l: nat :: Defs(code, l) <= 1
  }

  lemma Lands(code: Code, l: nat, q: nat)
    requires Distinct(code) && q < |code| && code[q] == L(l)
    ensures Land(code, l) == q + 1
  {
    FindOnce(code, l, q);
  }

  lemma Tick(code: Code, s: State)
    requires Agrees(code, s) && Step(code, s).Some?
    ensures After(code, s, 1) == Step(code, s)
  {
    assert After(code, Step(code, s).value, 0) == Step(code, s);
  }

  /** Control passes a label. */
  lemma Pass(code: Code, s: State)
    requires Agrees(code, s) && code[s.pc].L?
    ensures After(code, s, 1) == Some(State(s.pc + 1, s.stack, s.env))
  {
    hide Depth;
    Tick(code, s);
  }

  // ----- how a piece of code ends -----

  /** The value a node leaves on the stack. */
  function Kept(poped: bool, v: Value): seq<Value> { if poped then [] else [v] }

  /** The outcome o shows as it should: a value at p, on top of base; a break behind the loop's break
      label, on top of what lay below the loop; and when fuel does not suffice, so many steps. */
  ghost predicate Ends(code: Code, s: State, m: nat, o: Option<Outcome>, fuel: nat,
                       p: nat, base: seq<Value>, poped: bool, ctx: Loop, depth: int)
  {
    match o
    case None => m >= fuel && After(code, s, m).Some?
    case Some(Normal(v, env)) => After(code, s, m) == Some(State(p, base + Kept(poped, v), env))
    case Some(Broke(v, env)) =>
      ctx.InLoop? && 0 <= depth <= |base|
          && After(code, s, m) == Some(State(Land(code, ctx.brk), base[..depth] + [v], env))
  }

  /** The depth at which the loop's body starts. */
  function Floor(ctx: Loop, r: Rec): int {
    if ctx.InLoop? && ctx.redo in r.sps then r.sps[ctx.redo] else 0
  }

  lemma Prepend(code: Code, s: State, m: nat, s1: State, m1: nat, o: Option<Outcome>, fuel: nat,
                p: nat, base: seq<Value>, poped: bool, ctx: Loop, depth: int)
    requires After(code, s, m) == Some(s1) && Ends(code, s1, m1, o, fuel, p, base, poped, ctx, depth)
    ensures Ends(code, s, m + m1, o, fuel, p, base, poped, ctx, depth)
  {
    AfterAdd(code, s, m, s1, m1);
  }

  /** A condition ends at one of its two labels, and at the else label only if its code refers to it. */
  ghost predicate EndsCond(code: Code, s: State, m: nat, o: Option<Outcome>, fuel: nat,
                           c: Node, t: nat, e: nat, ctx: Loop, depth: int)
  {
    match o
    case None => m >= fuel && After(code, s, m).Some?
    case Some(Normal(v, env)) =>
      && After(code, s, m) == Some(State(Land(code, if Truthy(v) then t else e), s.stack, env))
      && (!Truthy(v) ==> RefersElse(c))
    case Some(Broke(v, env)) =>
      ctx.InLoop? && 0 <= depth <= |s.stack|
          && After(code, s, m) == Some(State(Land(code, ctx.brk), s.stack[..depth] + [v], env))
  }

  /** One optional instruction that does not jump. */
  lemma RunOpt(code: Code, s: State, poped: bool, i: Insn, rest: Code) returns (m: nat)
    requires Sits(code, s.pc, Unless(poped, [I(i)]) + rest) && Depth(code, s.pc).sp == |s.stack|
    requires Target(i) == None && !i.Leave? && (!poped && (i.Pop? || i.Dup? || i.SetLocal?) ==> |s.stack| > 0)
    ensures poped ==> m == 0 && Sits(code, s.pc, rest)
    ensures !poped ==>
              && m == 1 && Sits(code, s.pc + 1, rest) && Exec(i, code, s).Some? && After(code, s, 1) == Exec(i, code, s)
              && Depth(code, s.pc + 1).sp == |s.stack| + Effect(i) == |Exec(i, code, s).value.stack|
  {
    hide Depth, After;
    if poped {
      assert Unless(poped, [I(i)]) + rest == rest;
      m := 0;
    } else {
      EnterOne(code, s.pc, I(i), rest);
      Tick(code, s);
      m := 1;
    }
  }

  /** Jump moves behind its label and keeps the stack. */
  lemma RunJump(code: Code, s: State, l: nat)
    requires Agrees(code, s) && code[s.pc] == I(Jump(l))
    ensures After(code, s, 1) == Some(State(Land(code, l), s.stack, s.env))
  {
    hide Depth;
    Tick(code, s);
  }

  /** A conditional branch takes the top of the stack. */
  lemma RunBranch(code: Code, s: State, l: nat, onTrue: bool)
    requires Agrees(code, s) && code[s.pc] == I(if onTrue then BranchIf(l) else BranchUnless(l)) && |s.stack| > 0
    ensures var top := |s.stack| - 1;
            After(code, s, 1)
            == Some(State(if Truthy(s.stack[top]) == onTrue then Land(code, l) else s.pc + 1, s.stack[..top], s.env))
  {
    hide Depth;
    Tick(code, s);
  }

  // ----- simulation -----

  /** The lowered form of n stands at s.pc, with r recorded there, and may run. */
  ghost predicate Placed(code: Code, s: State, n: Node, poped: bool, ctx: Loop, k: nat, r: Rec) {
    && Sits(code, s.pc, Lower(n, poped, ctx, k)) && Depth(code, s.pc) == r && |s.stack| == r.sp
    && Ready(n, ctx, k, r) && Distinct(code)
  }

  ghost predicate PlacedCond(code: Code, s: State, c: Node, t: nat, e: nat, ctx: Loop, k: nat, r: Rec) {
    && Sits(code, s.pc, LowerCond(c, t, e, ctx, k)) && Depth(code, s.pc) == r && |s.stack| == r.sp
    && ReadyCond(c, t, e, ctx, k, r) && Distinct(code)
  }

  lemma {:induction false} Sim(code: Code, s: State, n: Node, poped: bool, ctx: Loop, k: nat, r: Rec, fuel: nat)
    returns (m: nat)
    requires Placed(code, s, n, poped, ctx, k, r)
    ensures Ends(code, s, m, Eval(n, s.env, fuel), fuel, s.pc + |Lower(n, poped, ctx, k)|, s.stack, poped, ctx,
                 Floor(ctx, r))
    decreases fuel, n, 3
  {
    match n
    case LAsgn(_, _) => m := SimAsgn(code, s, n, poped, ctx, k, r, fuel);
    case Block(_, _) => m := SimBlock(code, s, n, poped, ctx, k, r, fuel);
    case If(_, _, _) => m := SimIf(code, s, n, poped, ctx, k, r, fuel);
    case And(_, _) => m := SimShort(code, s, n, poped, ctx, k, r, fuel);
    case Or(_, _) => m := SimShort(code, s, n, poped, ctx, k, r, fuel);
    case While(_, _, _, _) => m := SimWhile(code, s, n, poped, ctx, k, r, fuel);
    case Break(_) => m := SimBreak(code, s, n, poped, ctx, k, r, fuel);
    case _ => m := SimLeaf(code, s, n, poped, ctx, k, r, fuel);
  }

  lemma SimLeaf(code: Code, s: State, n: Node, poped: bool, ctx: Loop, k: nat, r: Rec, fuel: nat) returns (m: nat)
    requires Simple(n)
    requires Placed(code, s, n, poped, ctx, k, r)
    ensures Ends(code, s, m, Eval(n, s.env, fuel), fuel, s.pc + |Lower(n, poped, ctx, k)|, s.stack, poped, ctx,
                 Floor(ctx, r))
  {
    hide After, Depth, Ready, Distinct, Floor, Sits;
    assert Lower(n, poped, ctx, k) == Unless(poped, [I(Leaf(n))]) == Unless(poped, [I(Leaf(n))]) + [];
    m := RunOpt(code, s, poped, Leaf(n), []);
    assert poped ==> forall v :: s.stack + Kept(poped, v) == s.stack;
    assert After(code, s, 0) == Some(s) by { Here(code, s); }
  }

  lemma Here(code: Code, s: State)
    ensures After(code, s, 0) == Some(s)
  {
  }

  lemma {:induction false} SimAsgn(code: Code, s: State, n: Node, poped: bool, ctx: Loop, k: nat, r: Rec, fuel: nat)
    returns (m: nat)
    requires n.LAsgn? && Placed(code, s, n, poped, ctx, k, r)
    ensures Ends(code, s, m, Eval(n, s.env, fuel), fuel, s.pc + |Lower(n, poped, ctx, k)|, s.stack, poped, ctx,
                 Floor(ctx, r))
    decreases fuel, n, 2
  {
    hide Lower, Labels, WellFormed, Eval, After, Depth, Distinct, Fold, AdjustsDown, Sits, Floor;
    ReadyForm(n, ctx, k, r);
    AsgnParts(n, ctx.InLoop?);
    AsgnShape(n, poped, ctx, k);
    EvalAsgn(n, s.env, fuel);
    var c1, x := Lower(n.value, false, ctx, k), Unless(poped, [I(Dup)]);
    Enter(code, s.pc, c1, x + [I(SetLocal(n.i))]);
    m := Sim(code, s, n.value, false, ctx, k, r, fuel);
    var o := Eval(n.value, s.env, fuel);
    if o.Some? && o.value.Normal? {
      var v := o.value.v;
      LinkLower(n.value, false, ctx, k, r);
      var s1 := State(s.pc + |c1|, s.stack + [v], o.value.env);
      var m1 := RunOpt(code, s1, poped, Dup, [I(SetLocal(n.i))]);
      AfterAdd(code, s, m, s1, m1);
      Here(code, s1);
      var s2 := if poped then s1 else State(s1.pc + 1, s1.stack + [v], s1.env);
      m := m + m1;
      assert [I(SetLocal(n.i))] == Unless(false, [I(SetLocal(n.i))]) + [];
      var m2 := RunOpt(code, s2, false, SetLocal(n.i), []);
      AfterAdd(code, s, m, s2, m2);
      m := m + m2;
      assert s2.stack[..|s2.stack| - 1] == s.stack + Kept(poped, v);
    }
  }

  lemma {:induction false} SimBlock(code: Code, s: State, n: Node, poped: bool, ctx: Loop, k: nat, r: Rec, fuel: nat)
    returns (m: nat)
    requires n.Block? && Placed(code, s, n, poped, ctx, k, r)
    ensures Ends(code, s, m, Eval(n, s.env, fuel), fuel, s.pc + |Lower(n, poped, ctx, k)|, s.stack, poped, ctx,
                 Floor(ctx, r))
    decreases fuel, n, 2
  {
    hide Eval, After, Depth, Distinct, Fold, AdjustsDown, Sits;
    EvalBlock(n, s.env, fuel);
    if n.next.Absent? {
      BlockParts(n, ctx.InLoop?);
      BlockShape(n, poped, ctx, k);
      m := Sim(code, s, n.head, poped, ctx, k, r, fuel);
    } else {
      m := SimBlockTwo(code, s, n, poped, ctx, k, r, fuel);
    }
  }

  lemma {:induction false} SimBlockTwo(code: Code, s: State, n: Node, poped: bool, ctx: Loop, k: nat, r: Rec, fuel: nat)
    returns (m: nat)
    requires n.Block? && !n.next.Absent? && Placed(code, s, n, poped, ctx, k, r)
    ensures Ends(code, s, m, Eval(n, s.env, fuel), fuel, s.pc + |Lower(n, poped, ctx, k)|, s.stack, poped, ctx,
                 Floor(ctx, r))
    decreases fuel, n, 1
  {
    hide Lower, Labels, WellFormed, Eval, After, Depth, Distinct, Fold, AdjustsDown, Sits, Ready;
    EvalBlock(n, s.env, fuel);
    var r1 := LinkBlock(n, poped, ctx, k, r);
    ReadyForm(n, ctx, k, r);
    BlockParts(n, ctx.InLoop?);
    BlockShape(n, poped, ctx, k);
    var c1 := Lower(n.head, true, ctx, k);
    Enter(code, s.pc, c1, Lower(n.next, poped, ctx, k + Labels(n.head)));
    m := Sim(code, s, n.head, true, ctx, k, r, fuel);
    var o := Eval(n.head, s.env, fuel);
    if o.Some? && o.value.Normal? {
      var s1 := State(s.pc + |c1|, s.stack, o.value.env);
      assert s.stack + Kept(true, o.value.v) == s.stack;
      var m1 := Sim(code, s1, n.next, poped, ctx, k + Labels(n.head), r1, fuel);
      FloorKept(ctx, r, c1);
      Prepend(code, s, m, s1, m1, Eval(n.next, s1.env, fuel), fuel, s.pc + |Lower(n, poped, ctx, k)|, s.stack, poped,
              ctx, Floor(ctx, r));
      m := m + m1;
    }
  }

  lemma ReadyForm(n: Node, ctx: Loop, k: nat, r: Rec)
    requires Ready(n, ctx, k, r)
    ensures WellFormed(n, ctx.InLoop?) && r.sp >= 0
    ensures ctx.InLoop? ==> ctx.redo in r.sps && 0 <= r.sps[ctx.redo] <= r.sp
  {
    hide WellFormed, Labels;
  }

  /** The floor of the loop stays where it is. */
  lemma FloorKept(ctx: Loop, r: Rec, c: Code)
    requires ctx.InLoop? ==> ctx.redo in r.sps
    ensures Floor(ctx, Fold(c, r)) == Floor(ctx, r)
  {
    hide Fold;
    if ctx.InLoop? { Grows(c, r, ctx.redo); }
  }

  // ----- conditionals -----

  /** Where the parts of a lowered conditional stand, and what is recorded there. */
  lemma IfLayout(code: Code, p: nat, k: nat, c0: Code, c1: Code, c2: Code)
    requires Sits(code, p, c0 + Fork(k, c1, c2)) && Distinct(code)
    ensures var q := p + |c0|;
            var q2 := q + |c1| + 3;
            && Sits(code, p, c0) && Sits(code, q + 1, c1) && Sits(code, q2, c2)
            && q2 + |c2| + 1 == p + |c0 + Fork(k, c1, c2)| <= |code|
            && Land(code, k) == q + 1 && Land(code, k + 1) == q2 && Land(code, k + 2) == q2 + |c2| + 1
            && code[q2 - 2] == I(Jump(k + 2)) && code[q2 + |c2|] == L(k + 2)
            && Depth(code, q + 1) == Record(L(k), Fold(c0, Depth(code, p)))
            && Depth(code, q2 - 2) == Fold(c1, Depth(code, q + 1))
            && Depth(code, q2) == Record(L(k + 1), Record(I(Jump(k + 2)), Depth(code, q2 - 2)))
            && Depth(code, q2 + |c2|) == Fold(c2, Depth(code, q2))
  {
    hide Depth, Fold, Record, Land, Sits, Distinct;
    var q := p + |c0|;
    Enter(code, p, c0, Fork(k, c1, c2));
    var rest1 := [L(k + 1)] + (c2 + [L(k + 2)]);
    assert [I(Jump(k + 2)), L(k + 1)] + (c2 + [L(k + 2)]) == [I(Jump(k + 2))] + rest1;
    EnterOne(code, q, L(k), c1 + ([I(Jump(k + 2))] + rest1));
    Enter(code, q + 1, c1, [I(Jump(k + 2))] + rest1);
    EnterOne(code, q + 1 + |c1|, I(Jump(k + 2)), rest1);
    EnterOne(code, q + |c1| + 2, L(k + 1), c2 + [L(k + 2)]);
    Enter(code, q + |c1| + 3, c2, [L(k + 2)]);
    assert [L(k + 2)] == [L(k + 2)] + [];
    EnterOne(code, q + |c1| + 3 + |c2|, L(k + 2), []);
    Lands(code, k, q);
    Lands(code, k + 1, q + |c1| + 2);
    Lands(code, k + 2, q + |c1| + 3 + |c2|);
  }

  lemma {:induction false} SimIf(code: Code, s: State, n: Node, poped: bool, ctx: Loop, k: nat, r: Rec, fuel: nat)
    returns (m: nat)
    requires n.If? && Placed(code, s, n, poped, ctx, k, r)
    ensures Ends(code, s, m, Eval(n, s.env, fuel), fuel, s.pc + |Lower(n, poped, ctx, k)|, s.stack, poped, ctx,
                 Floor(ctx, r))
    decreases fuel, n, 2
  {
    hide Lower, LowerCond, Labels, CondLabels, WellFormed, Eval, After, Depth, Distinct, Fold, Record, AdjustsDown,
         Sits, Ready, ReadyCond, RefersElse, Land, Fork;
    EvalIf(n, s.env, fuel);
    IfShape(n, poped, ctx, k);
    ReadyForm(n, ctx, k, r);
    var r1, r2 := LinkIf(n, poped, ctx, k, r);
    var k1 := k + 3 + CondLabels(n.cond);
    var k2 := k1 + Labels(n.body);
    var c0 := LowerCond(n.cond, k, k + 1, ctx, k + 3);
    var c1, c2 := Lower(n.body, poped, ctx, k1), Lower(n.els, poped, ctx, k2);
    IfLayout(code, s.pc, k, c0, c1, c2);
    m := SimCond(code, s, n.cond, k, k + 1, ctx, k + 3, r, fuel);
    var o := Eval(n.cond, s.env, fuel);
    if o.Some? && o.value.Normal? {
      var yes := Truthy(o.value.v);
      var part, rp := if yes then n.body else n.els, if yes then r1 else r2;
      var kp := if yes then k1 else k2;
      var s1 := State(Land(code, if yes then k else k + 1), s.stack, o.value.env);
      var m1 := Sim(code, s1, part, poped, ctx, kp, rp, fuel);
      var o1 := Eval(part, s1.env, fuel);
      LinkLower(part, poped, ctx, kp, rp);
      FloorIf(n, ctx, k, r, r1, r2, c0, c1);
      var p := s.pc + |Lower(n, poped, ctx, k)|;
      m1 := JoinEnd(code, s1, m1, o1, fuel, s1.pc + |Lower(part, poped, ctx, kp)|, p, poped, ctx, Floor(ctx, r), k + 2,
                    yes);
      Prepend(code, s, m, s1, m1, o1, fuel, p, s.stack, poped, ctx, Floor(ctx, r));
      m := m + m1;
    }
  }

  lemma FloorIf(n: Node, ctx: Loop, k: nat, r: Rec, r1: Rec, r2: Rec, c0: Code, c1: Code)
    requires ctx.InLoop? ==> ctx.redo in r.sps
    requires r1 == Record(L(k), Fold(c0, r)) && r2 == Record(L(k + 1), Record(I(Jump(k + 2)), Fold(c1, r1)))
    ensures Floor(ctx, r1) == Floor(ctx, r) && Floor(ctx, r2) == Floor(ctx, r)
  {
    hide Fold;
    if ctx.InLoop? {
      Grows(c0, r, ctx.redo);
      Grows(c1, r1, ctx.redo);
    }
  }

  /** One more element after a value is left at q: a jump to the end label, or the end label itself. */
  lemma JoinEnd(code: Code, s: State, m: nat, o: Option<Outcome>, fuel: nat, q: nat, p: nat, poped: bool, ctx: Loop,
                depth: int, l: nat, jump: bool) returns (m1: nat)
    requires Ends(code, s, m, o, fuel, q, s.stack, poped, ctx, depth)
    requires q < |code| && Depth(code, q).sp == |s.stack| + Left(poped)
    requires if jump then code[q] == I(Jump(l)) && Land(code, l) == p else code[q] == L(l) && p == q + 1
    ensures Ends(code, s, m1, o, fuel, p, s.stack, poped, ctx, depth)
  {
    hide After, Depth, Land;
    m1 := m;
    if o.Some? && o.value.Normal? {
      var s1 := State(q, s.stack + Kept(poped, o.value.v), o.value.env);
      if jump { RunJump(code, s1, l); } else { Pass(code, s1); }
      AfterAdd(code, s, m, s1, 1);
      m1 := m + 1;
    }
  }

  // ----- conditions -----

  lemma {:induction false} SimCond(code: Code, s: State, c: Node, t: nat, e: nat, ctx: Loop, k: nat, r: Rec, fuel: nat)
    returns (m: nat)
    requires PlacedCond(code, s, c, t, e, ctx, k, r)
    ensures EndsCond(code, s, m, Eval(c, s.env, fuel), fuel, c, t, e, ctx, Floor(ctx, r))
    decreases fuel, c, 5
  {
    if c.And? || c.Or? {
      m := SimPair(code, s, c, t, e, ctx, k, r, fuel);
    } else if Tested(c) {
      m := SimTested(code, s, c, t, e, ctx, k, r, fuel);
    } else {
      var l := if c.Lit? || c.TrueLit? then t else e;
      assert LowerCond(c, t, e, ctx, k) == [I(Jump(l))] + [];
      hide Depth, Record, Land, ReadyCond, After, Sits;
      EnterOne(code, s.pc, I(Jump(l)), []);
      RunJump(code, s, l);
      m := 1;
    }
  }

  lemma RefersShape(c: Node)
    ensures c.And? || c.Or? ==> (RefersElse(c) <==> (c.And? && RefersElse(c.a)) || RefersElse(c.b))
    ensures Tested(c) ==> RefersElse(c)
  {
  }

  lemma {:induction false} SimTested(code: Code, s: State, c: Node, t: nat, e: nat, ctx: Loop, k: nat, r: Rec,
                                     fuel: nat) returns (m: nat)
    requires Tested(c) && PlacedCond(code, s, c, t, e, ctx, k, r)
    ensures EndsCond(code, s, m, Eval(c, s.env, fuel), fuel, c, t, e, ctx, Floor(ctx, r))
    decreases fuel, c, 4
  {
    hide Lower, LowerCond, Labels, CondLabels, WellFormed, Eval, After, Depth, Distinct, Fold, AdjustsDown, Sits, Ready,
         ReadyCond, RefersElse, Land;
    TestedShape(c, t, e, ctx, k);
    RefersShape(c);
    LinkTested(c, t, e, ctx, k, r);
    var c1 := Lower(c, false, ctx, k);
    assert [I(BranchUnless(e)), I(Jump(t))] == [I(BranchUnless(e))] + ([I(Jump(t))] + []);
    Enter(code, s.pc, c1, [I(BranchUnless(e))] + ([I(Jump(t))] + []));
    EnterOne(code, s.pc + |c1|, I(BranchUnless(e)), [I(Jump(t))] + []);
    EnterOne(code, s.pc + |c1| + 1, I(Jump(t)), []);
    m := Sim(code, s, c, false, ctx, k, r, fuel);
    var o := Eval(c, s.env, fuel);
    if o.Some? && o.value.Normal? {
      LinkLower(c, false, ctx, k, r);
      var s1 := State(s.pc + |c1|, s.stack + [o.value.v], o.value.env);
      RunBranch(code, s1, e, false);
      AfterAdd(code, s, m, s1, 1);
      m := m + 1;
      assert s1.stack[..|s.stack|] == s.stack;
      if Truthy(o.value.v) {
        var s2 := State(s1.pc + 1, s.stack, s1.env);
        RunJump(code, s2, t);
        AfterAdd(code, s, m, s2, 1);
        m := m + 1;
      }
    }
  }

  lemma {:induction false} SimPair(code: Code, s: State, c: Node, t: nat, e: nat, ctx: Loop, k: nat, r: Rec, fuel: nat)
    returns (m: nat)
    requires (c.And? || c.Or?) && PlacedCond(code, s, c, t, e, ctx, k, r)
    ensures EndsCond(code, s, m, Eval(c, s.env, fuel), fuel, c, t, e, ctx, Floor(ctx, r))
    decreases fuel, c, 4
  {
    hide Lower, LowerCond, Labels, CondLabels, WellFormed, Eval, After, Depth, Distinct, Fold, Record, AdjustsDown,
         Sits, ReadyCond, RefersElse, Land;
    PairShape(c, t, e, ctx, k);
    RefersShape(c);
    EvalShort(c, s.env, fuel);
    var r1 := LinkPair(c, t, e, ctx, k, r);
    var t1, e1, k1 := First(c, t, true, k), First(c, e, false, k), k + 1 + CondLabels(c.a);
    var first, second := LowerCond(c.a, t1, e1, ctx, k + 1), LowerCond(c.b, t, e, ctx, k1);
    Enter(code, s.pc, first, [L(k)] + second);
    EnterOne(code, s.pc + |first|, L(k), second);
    Lands(code, k, s.pc + |first|);
    m := SimCond(code, s, c.a, t1, e1, ctx, k + 1, r, fuel);
    var o := Eval(c.a, s.env, fuel);
    if o.Some? && o.value.Normal? && Truthy(o.value.v) == c.And? {
      var s1 := State(Land(code, k), s.stack, o.value.env);
      var m1 := SimCond(code, s1, c.b, t, e, ctx, k1, r1, fuel);
      FloorCond(c, t, e, ctx, k, r, first);
      AfterAdd(code, s, m, s1, m1);
      m := m + m1;
    }
  }

  lemma FloorCond(c: Node, t: nat, e: nat, ctx: Loop, k: nat, r: Rec, first: Code)
    requires ReadyCond(c, t, e, ctx, k, r)
    ensures Floor(ctx, Record(L(k), Fold(first, r))) == Floor(ctx, r)
  {
    hide Fold, WellFormed, CondLabels, Unused;
    if ctx.InLoop? { Grows(first, r, ctx.redo); }
  }

  // ----- short-circuit operators and break -----

  lemma {:induction false} SimShort(code: Code, s: State, n: Node, poped: bool, ctx: Loop, k: nat, r: Rec, fuel: nat)
    returns (m: nat)
    requires (n.And? || n.Or?) && Placed(code, s, n, poped, ctx, k, r)
    ensures Ends(code, s, m, Eval(n, s.env, fuel), fuel, s.pc + |Lower(n, poped, ctx, k)|, s.stack, poped, ctx,
                 Floor(ctx, r))
    decreases fuel, n, 2
  {
    hide Lower, LowerCond, Labels, CondLabels, WellFormed, Eval, After, Depth, Distinct, Fold, Record, AdjustsDown,
         Sits, Ready, Land, Short;
    EvalShort(n, s.env, fuel);
    ShortShape(n, poped, ctx, k);
    ReadyForm(n, ctx, k, r);
    var r1 := LinkShort(n, poped, ctx, k, r);
    var k1 := k + 1 + Labels(n.a);
    var c1, c2 := Lower(n.a, false, ctx, k + 1), Lower(n.b, poped, ctx, k1);
    Enter(code, s.pc, c1, Short(k, Around(n, k), poped, c2));
    m := Sim(code, s, n.a, false, ctx, k + 1, r, fuel);
    var o, p := Eval(n.a, s.env, fuel), s.pc + |Lower(n, poped, ctx, k)|;
    if o.Some? && o.value.Normal? {
      LinkLower(n.a, false, ctx, k + 1, r);
      var s1 := State(s.pc + |c1|, s.stack + [o.value.v], o.value.env);
      var m1, s2 := RunShort(code, s1, s.stack, o.value.v, n, poped, k, c2, p);
      AfterAdd(code, s, m, s1, m1);
      m := m + m1;
      if Truthy(o.value.v) == n.And? {
        m1 := Sim(code, s2, n.b, poped, ctx, k1, r1, fuel);
        LinkLower(n.b, poped, ctx, k1, r1);
        FloorShort(n, poped, ctx, k, r, r1, c1);
        var o2 := Eval(n.b, s2.env, fuel);
        m1 := JoinEnd(code, s2, m1, o2, fuel, s2.pc + |c2|, p, poped, ctx, Floor(ctx, r), k, false);
        Prepend(code, s, m, s2, m1, o2, fuel, p, s.stack, poped, ctx, Floor(ctx, r));
        m := m + m1;
      }
    }
  }

  lemma FloorShort(n: Node, poped: bool, ctx: Loop, k: nat, r: Rec, r1: Rec, c1: Code)
    requires (n.And? || n.Or?) && (ctx.InLoop? ==> ctx.redo in r.sps)
    requires r1 == Fold(Unless(poped, [I(Pop)]), Record(Around(n, k), Fold(Unless(poped, [I(Dup)]), Fold(c1, r))))
    ensures Floor(ctx, r1) == Floor(ctx, r)
  {
    hide Fold;
    var r2 := Fold(c1, r);
    if ctx.InLoop? {
      Grows(c1, r, ctx.redo);
      OptPlain(poped, Dup, r2);
      OptPlain(poped, Pop, Record(Around(n, k), Fold(Unless(poped, [I(Dup)]), r2)));
    }
  }

  /** Between the operands: the first value v decides whether it is the result, at p, or is dropped
      before the second operand. */
  lemma RunShort(code: Code, s: State, base: seq<Value>, v: Value, n: Node, poped: bool, k: nat, c: Code, p: nat)
    returns (m: nat, s': State)
    requires (n.And? || n.Or?) && Sits(code, s.pc, Short(k, Around(n, k), poped, c)) && s.stack == base + [v]
    requires Depth(code, s.pc).sp == |s.stack| && Distinct(code) && p == s.pc + |Short(k, Around(n, k), poped, c)|
    ensures After(code, s, m) == Some(s')
    ensures Truthy(v) != n.And? ==> s' == State(p, base + Kept(poped, v), s.env)
    ensures Truthy(v) == n.And? ==>
              && s'.stack == base && s'.env == s.env && Sits(code, s'.pc, c) && s'.pc + |c| + 1 == p <= |code|
              && Depth(code, s'.pc) == Fold(Unless(poped, [I(Pop)]),
                                            Record(Around(n, k), Fold(Unless(poped, [I(Dup)]), Depth(code, s.pc))))
              && code[s'.pc + |c|] == L(k) && Depth(code, s'.pc + |c|) == Fold(c, Depth(code, s'.pc))
  {
    hide Depth, After, Land, Fold, Record, Sits, Distinct;
    var x, br, y := Unless(poped, [I(Dup)]), Around(n, k), Unless(poped, [I(Pop)]);
    var rest := y + (c + [L(k)]);
    Enter(code, s.pc, x, [br] + rest);
    m := RunOpt(code, s, poped, Dup, [br] + rest);
    Here(code, s);
    var q := s.pc + |x|;
    s' := State(q, base + Kept(poped, v) + [v], s.env);
    assert poped ==> base + [] == base;
    EnterOne(code, q, br, rest);
    Enter(code, q + 1, y, c + [L(k)]);
    var pb := q + 1 + |y|;
    Enter(code, pb, c, [L(k)]);
    assert [L(k)] == [L(k)] + [];
    EnterOne(code, pb + |c|, L(k), []);
    Lands(code, k, pb + |c|);
    RunBranch(code, s', k, n.Or?);
    AfterAdd(code, s, m, s', 1);
    m := m + 1;
    assert (base + Kept(poped, v) + [v])[..|base + Kept(poped, v)|] == base + Kept(poped, v);
    if Truthy(v) != n.And? {
      s' := State(p, base + Kept(poped, v), s.env);
    } else {
      s' := State(q + 1, base + Kept(poped, v), s.env);
      RecordBranch(br, Depth(code, q));
      var m1 := RunOpt(code, s', poped, Pop, c + [L(k)]);
      AfterAdd(code, s, m, s', m1);
      Here(code, s');
      m := m + m1;
      s' := State(pb, base, s.env);
      assert (base + [v])[..|base|] == base;
    }
  }

  lemma RecordBranch(br: Elem, r: Rec)
    requires br.I? && (br.insn.BranchIf? || br.insn.BranchUnless?)
    ensures Record(br, r).sp == r.sp - 1
  {
  }

  lemma {:induction false} SimBreak(code: Code, s: State, n: Node, poped: bool, ctx: Loop, k: nat, r: Rec, fuel: nat)
    returns (m: nat)
    requires n.Break? && Placed(code, s, n, poped, ctx, k, r)
    ensures Ends(code, s, m, Eval(n, s.env, fuel), fuel, s.pc + |Lower(n, poped, ctx, k)|, s.stack, poped, ctx,
                 Floor(ctx, r))
    decreases fuel, n, 2
  {
    hide Lower, Labels, WellFormed, Eval, After, Depth, Distinct, Fold, Record, AdjustsDown, Sits, Ready, Land;
    EvalBreak(n, s.env, fuel);
    ReadyForm(n, ctx, k, r);
    BreakParts(n, ctx.InLoop?);
    BreakShape(n, poped, ctx, k);
    var r1 := LinkBreak(n, poped, ctx, k, r);
    ReadyForm(n.value, ctx, k + 1, r1);
    var c1, last := Lower(n.value, false, ctx, k + 1), Unless(poped, [I(PutNil)]);
    var tail := [Adj(k, false)] + last;
    assert [L(k), Adj(ctx.redo, true)] + (c1 + ([I(Jump(ctx.brk)), Adj(k, false)] + last))
           == [L(k)] + ([Adj(ctx.redo, true)] + (c1 + ([I(Jump(ctx.brk))] + tail)));
    EnterOne(code, s.pc, L(k), [Adj(ctx.redo, true)] + (c1 + ([I(Jump(ctx.brk))] + tail)));
    EnterOne(code, s.pc + 1, Adj(ctx.redo, true), c1 + ([I(Jump(ctx.brk))] + tail));
    Enter(code, s.pc + 2, c1, [I(Jump(ctx.brk))] + tail);
    EnterOne(code, s.pc + 2 + |c1|, I(Jump(ctx.brk)), tail);
    var b := r.sps[ctx.redo];
    m := RunAdjust(code, s, k, ctx.redo, r);
    var s1 := State(s.pc + 2, s.stack[..b], s.env);
    var m1 := Sim(code, s1, n.value, false, ctx, k + 1, r1, fuel);
    AfterAdd(code, s, m, s1, m1);
    var o := Eval(n.value, s.env, fuel);
    m := m + m1;
    if o.Some? && o.value.Normal? {
      LinkLower(n.value, false, ctx, k + 1, r1);
      var s2 := State(s.pc + 2 + |c1|, s.stack[..b] + [o.value.v], o.value.env);
      RunJump(code, s2, ctx.brk);
      AfterAdd(code, s, m, s2, 1);
      m := m + 1;
    } else if o.Some? {
      assert s.stack[..b][..b] == s.stack[..b];
    }
  }

  /** Break first drops what the body has pushed since it started. */
  lemma RunAdjust(code: Code, s: State, k: nat, redo: nat, r: Rec) returns (m: nat)
    requires s.pc + 1 < |code| && code[s.pc] == L(k) && code[s.pc + 1] == Adj(redo, true) && redo in r.sps
    requires Depth(code, s.pc) == r && |s.stack| == r.sp && 0 <= r.sps[redo] <= r.sp && k !in r.sps
    requires Depth(code, s.pc + 1) == Record(L(k), r)
    ensures After(code, s, m) == Some(State(s.pc + 2, s.stack[..r.sps[redo]], s.env))
  {
    hide Depth, After;
    var s1 := State(s.pc + 1, s.stack, s.env);
    Pass(code, s);
    Tick(code, s1);
    AfterAdd(code, s, 1, s1, 1);
    m := 2;
  }

  // ----- loops -----

  /** A lowered loop that stands at p, and where its body and condition start. */
  datatype Site = Site(n: Node, poped: bool, k: nat, p: nat, r: Rec, r1: Rec, r2: Rec, r3: Rec)
  {
    function T(): nat requires n.While? { Onward(n, k, true) }
    function E(): nat requires n.While? { Onward(n, k, false) }
    function BodyCode(): Code requires n.While? { Lower(n.body, true, Inside(k), k + Own(n)) }
    function CondAt(): nat requires n.While? { k + Own(n) + Labels(n.body) }
    function CondCode(): Code requires n.While? { LowerCond(n.cond, T(), E(), Inside(k), CondAt()) }
    function Body(): nat requires n.While? { p + |LoopHead(k, n.testFirst)| }
    function Cond(): nat requires n.While? { Body() + |BodyCode()| + 1 }
    function Tail(): nat requires n.While? { Cond() + |CondCode()| }
    function End(): nat requires n.While? { Tail() + |LoopTail(k, poped)| }
  }

  /** The loop's code is in place: what is recorded at each part and where its labels lead. */
  ghost predicate Running(code: Code, w: Site) {
    && w.n.While? && Distinct(code) && w.r.sp >= 0
    && Sits(code, w.Body(), w.BodyCode()) && Sits(code, w.Cond(), w.CondCode())
        && Sits(code, w.Tail(), LoopTail(w.k, w.poped))
    && Depth(code, w.Body()) == w.r1 && w.r1.sp == w.r.sp && Ready(w.n.body, Inside(w.k), w.k + Own(w.n), w.r1)
    && Depth(code, w.Cond()) == w.r2 && w.r2.sp == w.r.sp
        && ReadyCond(w.n.cond, w.T(), w.E(), Inside(w.k), w.CondAt(), w.r2)
    && Depth(code, w.Tail()) == w.r3 && w.r3.sp == w.r.sp && At(w.r3, w.k + 3, w.r.sp) && At(w.r3, w.k + 2, w.r.sp + 1)
    && Floor(Inside(w.k), w.r1) == w.r.sp && Floor(Inside(w.k), w.r2) == w.r.sp
    && w.Cond() <= |code| && code[w.Cond() - 1] == L(w.k) && Depth(code, w.Cond() - 1).sp == w.r.sp
    && Land(code, w.k + 1) == w.Body() && Land(code, w.k) == w.Cond()
    && Land(code, w.k + 3) == w.Tail() + 1 && Land(code, w.k + 2) == w.Tail() + 3
  }

  lemma OwnUnused(n: Node, ctx: Loop, k: nat, r: Rec)
    requires n.While? && Ready(n, ctx, k, r)
    ensures Unused(r, k, if n.testFirst then 5 else 6)
  {
    WhileParts(n, ctx.InLoop?);
    hide Labels, WellFormed, CondLabels;
  }

  lemma HeadLayout(code: Code, p: nat, k: nat, testFirst: bool)
    requires Sits(code, p, LoopHead(k, testFirst)) && Distinct(code)
    ensures var q := p + |LoopHead(k, testFirst)|;
            && q <= |code| && code[p] == I(Jump(if testFirst then k else k + 5)) && code[q - 1] == L(k + 1)
            && Land(code, k + 1) == q && (!testFirst ==> Land(code, k + 5) == q - 1)
            && Depth(code, q - 1) == Fold(LoopEntry(k, testFirst), Depth(code, p))
  {
    hide Depth, Fold, Land, Distinct;
    Enter(code, p, LoopEntry(k, testFirst), [L(k + 1)]);
    var q := p + |LoopHead(k, testFirst)|;
    var c := code[p..q];
    assert code[p] == c[0] && code[q - 1] == c[|c| - 1];
    Lands(code, k + 1, q - 1);
    if !testFirst {
      assert code[q - 2] == c[|c| - 2];
      Lands(code, k + 5, q - 2);
    }
  }

  lemma TailLayout(code: Code, p: nat, k: nat, poped: bool)
    requires Sits(code, p, LoopTail(k, poped)) && Distinct(code)
    ensures Land(code, k + 3) == p + 1 && Land(code, k + 2) == p + 3
  {
    hide Land, Distinct;
    var c := code[p..p + |LoopTail(k, poped)|];
    assert code[p] == c[0] && code[p + 2] == c[2];
    Lands(code, k + 3, p);
    Lands(code, k + 2, p + 2);
  }

  lemma WhileLayout(code: Code, s: State, n: Node, poped: bool, ctx: Loop, k: nat, r: Rec) returns (w: Site)
    requires n.While? && Placed(code, s, n, poped, ctx, k, r)
    ensures w.n == n && w.poped == poped && w.k == k && w.p == s.pc && w.r == r && Running(code, w)
    ensures w.End() == s.pc + |Lower(n, poped, ctx, k)| && Sits(code, s.pc, LoopHead(k, n.testFirst))
    ensures !n.testFirst ==> Land(code, k + 5) + 1 == w.Body()
    ensures code[w.Body() - 1] == L(k + 1) && Depth(code, w.Body() - 1).sp == r.sp
    ensures code[s.pc] == I(Jump(if n.testFirst then k else k + 5))
  {
    hide Lower, LowerCond, Labels, CondLabels, WellFormed, Depth, Distinct, Fold, Record, AdjustsDown, Sits, Ready,
         ReadyCond, Land, LoopHead, LoopTail;
    WhileShape(n, poped, ctx, k);
    ReadyForm(n, ctx, k, r);
    var r1, r2, r3 := LinkWhile(n, poped, ctx, k, r);
    w := Site(n, poped, k, s.pc, r, r1, r2, r3);
    var head, tail := LoopHead(k, n.testFirst), LoopTail(k, poped);
    Enter(code, s.pc, head, w.BodyCode() + ([L(k)] + (w.CondCode() + tail)));
    Enter(code, w.Body(), w.BodyCode(), [L(k)] + (w.CondCode() + tail));
    EnterOne(code, w.Cond() - 1, L(k), w.CondCode() + tail);
    Enter(code, w.Cond(), w.CondCode(), tail);
    Lands(code, k, w.Cond() - 1);
    LinkLower(n.body, true, Inside(k), k + Own(n), r1);
    HeadLayout(code, s.pc, k, n.testFirst);
    LinkHead(k, n.testFirst, r) by { OwnUnused(n, ctx, k, r); }
    TailLayout(code, w.Tail(), k, poped);
  }

  /** The depth behind the break label, and what is left of the loop there. */
  lemma BehindBreak(code: Code, w: Site)
    requires Running(code, w)
    ensures w.n.While? && w.End() == w.Tail() + 3 + |Unless(!w.poped, [I(Pop)])|
    ensures w.Tail() + 3 <= |code| && Sits(code, w.Tail() + 3, Unless(!w.poped, [I(Pop)]) + [])
    ensures Depth(code, w.Tail() + 3).sp == w.r.sp + 1
  {
    hide Depth, Distinct, Land, Ready, ReadyCond, Fold, Sits, LowerCond, Lower;
    LinkTail(w.k, w.poped, w.r3);
    hide Record;
    var q := w.Tail();
    var last := Unless(!w.poped, [I(Pop)]) + [];
    assert LoopTail(w.k, w.poped) == [L(w.k + 3)] + ([I(PutNil)] + ([L(w.k + 2)] + last));
    EnterOne(code, q, L(w.k + 3), [I(PutNil)] + ([L(w.k + 2)] + last));
    EnterOne(code, q + 1, I(PutNil), [L(w.k + 2)] + last);
    EnterOne(code, q + 2, L(w.k + 2), last);
  }

  /** Behind the break label the loop's value is dropped if nobody wants it. */
  lemma LoopEnds(code: Code, w: Site, s: State, m: nat, v: Value, env: Env, base: seq<Value>) returns (m1: nat)
    requires Running(code, w) && |base| == w.r.sp && After(code, s, m) == Some(State(w.Tail() + 3, base + [v], env))
    ensures After(code, s, m1) == Some(State(w.End(), base + Kept(w.poped, v), env))
  {
    hide After, Depth, Running, Sits, LowerCond, Lower;
    BehindBreak(code, w);
    var s1 := State(w.Tail() + 3, base + [v], env);
    m1 := RunOpt(code, s1, !w.poped, Pop, []);
    AfterAdd(code, s, m, s1, m1);
    Here(code, s1);
    m1 := m + m1;
    assert (base + [v])[..|base|] == base && base + [] == base;
  }

  /** A loop whose condition said stop yields nil. */
  lemma LoopRunsOut(code: Code, w: Site, s: State, m: nat, env: Env, base: seq<Value>) returns (m1: nat)
    requires Running(code, w) && |base| == w.r.sp && After(code, s, m) == Some(State(w.Tail() + 1, base, env))
    ensures After(code, s, m1) == Some(State(w.End(), base + Kept(w.poped, NilV), env))
  {
    hide After, Depth, Distinct, Land, Ready, ReadyCond, Fold, Sits, LowerCond, Lower;
    LinkTail(w.k, w.poped, w.r3);
    hide Record;
    var q := w.Tail();
    var last := Unless(!w.poped, [I(Pop)]);
    assert LoopTail(w.k, w.poped) == [L(w.k + 3)] + ([I(PutNil)] + ([L(w.k + 2)] + last));
    EnterOne(code, q, L(w.k + 3), [I(PutNil)] + ([L(w.k + 2)] + last));
    EnterOne(code, q + 1, I(PutNil), [L(w.k + 2)] + last);
    EnterOne(code, q + 2, L(w.k + 2), last);
    var s1, s2 := State(q + 1, base, env), State(q + 2, base + [NilV], env);
    Tick(code, s1);
    AfterAdd(code, s, m, s1, 1);
    PutNilEffect(Record(L(w.k + 3), w.r3));
    Pass(code, s2);
    AfterAdd(code, s, m + 1, s2, 1);
    m1 := LoopEnds(code, w, s, m + 2, NilV, env, base);
  }

  lemma PutNilEffect(r: Rec)
    ensures Record(I(PutNil), r).sp == r.sp + 1
  {
  }

  /** A loop from its condition on. */
  lemma {:induction false} SimTest(code: Code, w: Site, s: State, ctx: Loop, depth: int, fuel: nat) returns (m: nat)
    requires Running(code, w) && s.pc == w.Cond() && |s.stack| == w.r.sp
    ensures Ends(code, s, m, LoopTest(w.n, s.env, fuel), fuel, w.End(), s.stack, w.poped, ctx, depth)
    decreases fuel, w.n, 1
  {
    hide Eval, After, Depth, Distinct, Land, Ready, ReadyCond, Fold, Sits, LowerCond, Lower, LoopBody, RefersElse;
    m := SimCond(code, s, w.n.cond, w.T(), w.E(), Inside(w.k), w.CondAt(), w.r2, fuel);
    var o := Eval(w.n.cond, s.env, fuel);
    if o.Some? {
      var v, env := o.value.v, o.value.env;
      if o.value.Broke? {
        assert s.stack[..|s.stack|] == s.stack;
        m := LoopEnds(code, w, s, m, v, env, s.stack);
      } else if Truthy(v) != w.n.until {
        var s1 := State(w.Body(), s.stack, env);
        var m1 := SimBody(code, w, s1, ctx, depth, fuel);
        Prepend(code, s, m, s1, m1, LoopBody(w.n, env, fuel), fuel, w.End(), s.stack, w.poped, ctx, depth);
        m := m + m1;
      } else {
        m := LoopRunsOut(code, w, s, m, env, s.stack);
      }
    }
  }

  /** A loop from its body on. */
  lemma {:induction false} SimBody(code: Code, w: Site, s: State, ctx: Loop, depth: int, fuel: nat) returns (m: nat)
    requires Running(code, w) && s.pc == w.Body() && |s.stack| == w.r.sp
    ensures Ends(code, s, m, LoopBody(w.n, s.env, fuel), fuel, w.End(), s.stack, w.poped, ctx, depth)
    decreases fuel, w.n, 0
  {
    hide Eval, After, Depth, Distinct, Land, Ready, ReadyCond, Fold, Sits, LowerCond, Lower, LoopTest;
    m := Sim(code, s, w.n.body, true, Inside(w.k), w.k + Own(w.n), w.r1, fuel);
    var o := Eval(w.n.body, s.env, fuel);
    if o.Some? {
      var v, env := o.value.v, o.value.env;
      if o.value.Broke? {
        assert s.stack[..|s.stack|] == s.stack;
        m := LoopEnds(code, w, s, m, v, env, s.stack);
      } else if fuel > 0 {
        assert s.stack + [] == s.stack;
        var s1, s2 := State(w.Cond() - 1, s.stack, env), State(w.Cond(), s.stack, env);
        Pass(code, s1);
        AfterAdd(code, s, m, s1, 1);
        var m1 := SimTest(code, w, s2, ctx, depth, fuel - 1);
        AfterAdd(code, s, m + 1, s2, m1);
        m := m + 1 + m1;
      }
    }
  }

  lemma {:induction false} SimWhile(code: Code, s: State, n: Node, poped: bool, ctx: Loop, k: nat, r: Rec, fuel: nat)
    returns (m: nat)
    requires n.While? && Placed(code, s, n, poped, ctx, k, r)
    ensures Ends(code, s, m, Eval(n, s.env, fuel), fuel, s.pc + |Lower(n, poped, ctx, k)|, s.stack, poped, ctx,
                 Floor(ctx, r))
    decreases fuel, n, 2
  {
    hide Eval, After, Depth, Distinct, Land, Ready, ReadyCond, Fold, Sits, LowerCond, Lower, LoopTest, LoopBody,
         LoopHead, LoopTail;
    EvalWhile(n, s.env, fuel);
    var w := WhileLayout(code, s, n, poped, ctx, k, r);
    RunJump(code, s, if n.testFirst then k else k + 5);
    if n.testFirst {
      var s1 := State(w.Cond(), s.stack, s.env);
      m := SimTest(code, w, s1, ctx, Floor(ctx, r), fuel);
      Prepend(code, s, 1, s1, m, LoopTest(n, s.env, fuel), fuel, w.End(), s.stack, poped, ctx, Floor(ctx, r));
      m := 1 + m;
    } else {
      var s1, s2 := State(w.Body() - 1, s.stack, s.env), State(w.Body(), s.stack, s.env);
      Pass(code, s1);
      AfterAdd(code, s, 1, s1, 1);
      m := SimBody(code, w, s2, ctx, Floor(ctx, r), fuel);
      Prepend(code, s, 2, s2, m, LoopBody(n, s.env, fuel), fuel, w.End(), s.stack, poped, ctx, Floor(ctx, r));
      m := 2 + m;
    }
  }
}
