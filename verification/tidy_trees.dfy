/** A condition on the tree under which the list it is compiled to is neat: no literal is an operand of && or
    || in a test, and a test is a literal itself only where what it lets run begins with an instruction that
    is no jump. */
module TidyTrees {
  import opened Nodes
  import opened Options
  import opened Lowering
  import opened PeepholeStep
  import opened OptimizePass
  import opened NeatLists
  import opened TidyPieces

  /** A test that is decided when it is compiled. */
  predicate Literal(c: Node) {
    c.Lit? || c.TrueLit? || c.FalseLit? || c.NilLit?
  }

  predicate Holds(c: Node)
    requires Literal(c)
  {
    c.Lit? || c.TrueLit?
  }

  /** The first thing the code of a node does is neither a jump nor can it be jumped to. */
  predicate Plain(n: Node, poped: bool)
    decreases n, 0
  {
    match n
    case LAsgn(_, value) => Plain(value, false)
    case Block(head, next) => Plain(head, poped || !next.Absent?)
    case If(cond, _, _) => PlainTest(cond)
    case And(a, _) => Plain(a, false)
    case Or(a, _) => Plain(a, false)
    case While(_, _, _, _) => false
    case Break(_) => false
    case _ => !poped
  }

  predicate PlainTest(c: Node)
    decreases c, 1
  {
    match c
    case And(a, _) => PlainTest(a)
    case Or(a, _) => PlainTest(a)
    case Lit(_) => false
    case TrueLit => false
    case FalseLit => false
    case NilLit => false
    case _ => Plain(c, false)
  }

  /** Tests decided by a literal are whole tests, in front of a plain branch or loop body. */
  predicate Tidy(n: Node)
    decreases n, 0
  {
    match n
    case LAsgn(_, value) => Tidy(value)
    case Block(head, next) => Tidy(head) && Tidy(next)
    case If(cond, body, els) =>
      Tidy(body) && Tidy(els) && if Literal(cond) then Plain(body, true) else TidyTest(cond)
    case And(a, b) => Tidy(a) && Tidy(b)
    case Or(a, b) => Tidy(a) && Tidy(b)
    case While(cond, body, until, _) =>
      Tidy(body) && if Literal(cond) then Holds(cond) != until ==> Plain(body, true) else TidyTest(cond)
    case Break(value) => Tidy(value)
    case _ => true
  }

  predicate TidyTest(c: Node)
    decreases c, 1
  {
    match c
    case And(a, b) => TidyTest(a) && TidyTest(b)
    case Or(a, b) => TidyTest(a) && TidyTest(b)
    case Lit(_) => false
    case TrueLit => false
    case FalseLit => false
    case NilLit => false
    case _ => Tidy(c)
  }

  // ----- the labels of a node -----

  predicate Lies(l: nat, lo: nat, hi: nat) {
    lo <= l < hi
  }

  ghost function Range(lo: nat, hi: nat): set<nat> {
    set l: nat | l < hi && Lies(l, lo, hi)
  }

  ghost function Ahead(ctx: Loop): set<nat> {
    if ctx.InLoop? then {ctx.brk} else {}
  }

  ghost predicate Outside(ctx: Loop, k: nat) {
    ctx.InLoop? ==> ctx.brk < k
  }

  /** What the code of a node has whose labels are those from lo to hi. */
  ghost predicate Whole(s: Code, ahead: set<nat>, lo: nat, hi: nat) {
    Core(s, ahead, Range(lo, hi), Range(lo, hi) + ahead) && Front(s) && (s != [] ==> HasSolid(s))
  }

  /** What the code of a test has. */
  ghost predicate WholeTest(s: Code, t: nat, e: nat, ahead: set<nat>, lo: nat, hi: nat) {
    CondPiece(s, t, e, ahead, Range(lo, hi), Range(lo, hi) + ahead + {t, e})
  }

  // ----- pieces of code without labels -----

  lemma FlatPiece(s: Code, ahead: set<nat>)
    requires forall q :: 0 <= q < |s| ==> s[q].I? && Target(s[q].insn) == None
    ensures Core(s, ahead, {}, {}) && Front(s) && (s != [] ==> HasSolid(s))
  {
    assert forall q: nat :: !IsJump(s, q) && !IsBranch(s, q) && !Paired(s, q);
    if s != [] { assert Solid(s, 0); }
  }

  lemma LabelCore(x: nat, ahead: set<nat>)
    ensures Core([L(x)], ahead, {}, {}) && Starts([L(x)])
  {
    hide Core, Starts;
    LabelPiece(x);
    Wider([L(x)], {}, {}, {}, ahead, {}, {});
  }

  /** A branch in front of a piece that ends in the label it leads to. */
  lemma BranchPiece(br: Elem, s: Code, ahead: set<nat>, own: set<nat>, refs: set<nat>, k: nat)
    requires br == I(BranchIf(k)) || br == I(BranchUnless(k))
    requires Core(s, ahead, own, refs) && Front(s) && s != [] && s[|s| - 1] == L(k) && k !in own
    ensures Core([br] + s, ahead, own, refs + {k}) && Front([br] + s) && HasSolid([br] + s)
  {
    var b := [br];
    assert Piece(b, ahead, {}, {k}) && Tail(b) && Front(b) && HasSolid(b) && OpenTo(b, k) by {
      assert forall q: nat :: !IsJump(b, q) && !Paired(b, q);
      assert Solid(b, 0);
    }
    assert Fits(b, s, own, {k}, refs) by { hide Piece, Closed, Starts; }
    assert {k} + refs == refs + {k};
    assert Within(s, -1, |s|, k) by { WithinIs(s, -1, |s|, k, |s| - 1); }
    assert Opens(b + s, own);
    hide Piece, Closed, Tail, Starts, Fits, HasSolid, OpenTo, Within, Opens;
    JoinPiece(b, ahead, {}, {k}, s, ahead, own, refs, own);
    JoinClosedTo(b, s, k);
    JoinEnds(b, s);
    JoinFront(b, s);
    JoinSolid(b, s);
  }

  // ----- what the code of a node has -----

  lemma {:induction false} NodeTidy(n: Node, poped: bool, ctx: Loop, k: nat)
    requires WellFormed(n, ctx.InLoop?) && Tidy(n) && Outside(ctx, k)
    ensures Whole(Lower(n, poped, ctx, k), Ahead(ctx), k, k + Labels(n))
    ensures !poped ==> Lower(n, poped, ctx, k) != []
    decreases n, 1
  {
    hide Whole, Lower, LowerCond, Labels, CondLabels, WellFormed, Ahead;
    match n
    case LAsgn(_, _) => AsgnTidy(n, poped, ctx, k);
    case Block(_, _) => BlockTidy(n, poped, ctx, k);
    case If(_, _, _) => IfTidy(n, poped, ctx, k);
    case And(_, _) => ShortTidy(n, poped, ctx, k);
    case Or(_, _) => ShortTidy(n, poped, ctx, k);
    case While(_, _, _, _) => WhileTidy(n, poped, ctx, k);
    case Break(_) => BreakTidy(n, poped, ctx, k);
    case _ =>
      LeafShape(n, poped, ctx, k);
      FlatWhole(Unless(poped, [I(Leaf(n))]), Ahead(ctx), k);
  }

  lemma FlatWhole(s: Code, ahead: set<nat>, k: nat)
    requires forall q :: 0 <= q < |s| ==> s[q].I? && Target(s[q].insn) == None
    ensures Whole(s, ahead, k, k)
  {
    FlatPiece(s, ahead);
    assert Range(k, k) == {};
    hide Core, Front;
    Wider(s, ahead, {}, {}, ahead, {}, {} + ahead);
  }

  /** A node's code with more behind it. */
  lemma WholeThen(a: Code, ahead: set<nat>, lo: nat, hi: nat, b: Code, own: set<nat>, refs: set<nat>)
    requires Whole(a, ahead, lo, hi) && a != [] && Core(b, ahead, own, refs)
    requires Range(lo, hi) !! refs && own !! Range(lo, hi) + ahead
    ensures Core(a + b, ahead, Range(lo, hi) + own, Range(lo, hi) + ahead + refs) && Front(a + b) && HasSolid(a + b)
  {
    hide Core, Front, HasSolid, Range;
    JoinCore(a, ahead, Range(lo, hi), Range(lo, hi) + ahead, b, ahead, own, refs);
    JoinFront(a, b);
    JoinSolid(a, b);
  }

  lemma AsWhole(s: Code, ahead: set<nat>, own: set<nat>, refs: set<nat>, lo: nat, hi: nat)
    requires Core(s, ahead, own, refs) && Front(s) && HasSolid(s)
    requires own <= Range(lo, hi) && refs <= Range(lo, hi) + ahead
    ensures Whole(s, ahead, lo, hi)
  {
    hide Core, Front, HasSolid, Range;
    Wider(s, ahead, own, refs, ahead, Range(lo, hi), Range(lo, hi) + ahead);
  }

  lemma {:induction false} AsgnTidy(n: Node, poped: bool, ctx: Loop, k: nat)
    requires n.LAsgn? && WellFormed(n, ctx.InLoop?) && Tidy(n) && Outside(ctx, k)
    ensures Whole(Lower(n, poped, ctx, k), Ahead(ctx), k, k + Labels(n)) && Lower(n, poped, ctx, k) != []
    decreases n, 0
  {
    hide Whole, Lower, LowerCond, Labels, CondLabels, WellFormed, Core, Front, HasSolid;
    AsgnParts(n, ctx.InLoop?);
    AsgnShape(n, poped, ctx, k);
    NodeTidy(n.value, false, ctx, k);
    var a, b := Lower(n.value, false, ctx, k), Unless(poped, [I(Dup)]) + [I(SetLocal(n.i))];
    FlatPiece(b, Ahead(ctx));
    WholeThen(a, Ahead(ctx), k, k + Labels(n), b, {}, {});
    AsWhole(a + b, Ahead(ctx), Range(k, k + Labels(n)) + {}, Range(k, k + Labels(n)) + Ahead(ctx) + {}, k,
            k + Labels(n));
  }

  lemma {:induction false} BlockTidy(n: Node, poped: bool, ctx: Loop, k: nat)
    requires n.Block? && WellFormed(n, ctx.InLoop?) && Tidy(n) && Outside(ctx, k)
    ensures Whole(Lower(n, poped, ctx, k), Ahead(ctx), k, k + Labels(n))
    ensures !poped ==> Lower(n, poped, ctx, k) != []
    decreases n, 0
  {
    hide Whole, Lower, LowerCond, Labels, CondLabels, WellFormed, Core, Front, HasSolid;
    BlockParts(n, ctx.InLoop?);
    BlockShape(n, poped, ctx, k);
    NodeTidy(n.head, if n.next.Absent? then poped else true, ctx, k);
    if !n.next.Absent? {
      var m, hi, ahead := k + Labels(n.head), k + Labels(n), Ahead(ctx);
      NodeTidy(n.next, poped, ctx, m);
      var a, b := Lower(n.head, true, ctx, k), Lower(n.next, poped, ctx, m);
      if a == [] {
        assert a + b == b;
        WholeWider(b, ahead, m, hi, k, hi);
      } else {
        var own := Range(m, hi);
        WholeCore(b, ahead, m, hi);
        WholeThen(a, ahead, k, m, b, own, own + ahead);
        AsWhole(a + b, ahead, Range(k, m) + own, Range(k, m) + ahead + (own + ahead), k, hi);
      }
    }
  }

  lemma WholeCore(s: Code, ahead: set<nat>, lo: nat, hi: nat)
    requires Whole(s, ahead, lo, hi)
    ensures Core(s, ahead, Range(lo, hi), Range(lo, hi) + ahead) && Front(s)
  {
    hide Core, Front;
  }

  lemma WholeWider(s: Code, ahead: set<nat>, lo: nat, hi: nat, lo': nat, hi': nat)
    requires Whole(s, ahead, lo, hi) && lo' <= lo && hi <= hi'
    ensures Whole(s, ahead, lo', hi')
  {
    hide Core, Front, HasSolid;
    Wider(s, ahead, Range(lo, hi), Range(lo, hi) + ahead, ahead, Range(lo', hi'), Range(lo', hi') + ahead);
  }

  lemma {:induction false} BreakTidy(n: Node, poped: bool, ctx: Loop, k: nat)
    requires n.Break? && WellFormed(n, ctx.InLoop?) && Tidy(n) && Outside(ctx, k)
    ensures Whole(Lower(n, poped, ctx, k), Ahead(ctx), k, k + Labels(n)) && Lower(n, poped, ctx, k) != []
    decreases n, 0
  {
    hide Whole, Lower, LowerCond, Labels, CondLabels, WellFormed, Core, Front, HasSolid;
    BreakParts(n, ctx.InLoop?);
    BreakShape(n, poped, ctx, k);
    NodeTidy(n.value, false, ctx, k + 1);
    var hi, ahead := k + Labels(n), Ahead(ctx);
    var a, b := [L(k), Adj(ctx.redo, true)], Lower(n.value, false, ctx, k + 1);
    var c := [I(Jump(ctx.brk)), Adj(k, false)] + Unless(poped, [I(PutNil)]);
    BreakEnds(k, ctx.redo, ctx.brk, poped);
    WholeThen(b, ahead, k + 1, hi, c, {}, ahead);
    JoinCore(a, ahead, {}, {}, b + c, ahead, Range(k + 1, hi) + {}, Range(k + 1, hi) + ahead + ahead);
    JoinFront(a, b + c);
    JoinSolid(a, b + c);
    AsWhole(a + (b + c), ahead, {} + (Range(k + 1, hi) + {}), {} + (Range(k + 1, hi) + ahead + ahead), k, hi);
  }

  lemma BreakEnds(k: nat, redo: nat, brk: nat, poped: bool)
    ensures var a := [L(k), Adj(redo, true)]; Core(a, {brk}, {}, {}) && Front(a) && HasSolid(a)
    ensures Core([I(Jump(brk)), Adj(k, false)] + Unless(poped, [I(PutNil)]), {brk}, {}, {brk})
  {
    var a, c := [L(k), Adj(redo, true)], [I(Jump(brk)), Adj(k, false)] + Unless(poped, [I(PutNil)]);
    assert forall q: nat :: !IsJump(a, q) && !IsBranch(a, q) && !Paired(a, q);
    assert Solid(a, 1);
    assert forall q: nat :: (IsJump(c, q) ==> q == 0) && !IsBranch(c, q) && !Paired(c, q);
  }

  lemma TidyShort(n: Node)
    requires (n.And? || n.Or?) && Tidy(n)
    ensures Tidy(n.a) && Tidy(n.b)
  {
    if n.And? {} else {}
  }

  lemma {:induction false} ShortTidy(n: Node, poped: bool, ctx: Loop, k: nat)
    requires (n.And? || n.Or?) && WellFormed(n, ctx.InLoop?) && Tidy(n) && Outside(ctx, k)
    ensures Whole(Lower(n, poped, ctx, k), Ahead(ctx), k, k + Labels(n)) && Lower(n, poped, ctx, k) != []
    decreases n, 0
  {
    hide Whole, Lower, LowerCond, Labels, CondLabels, WellFormed, Core, Front, HasSolid;
    ShortParts(n, ctx.InLoop?);
    ShortShape(n, poped, ctx, k);
    TidyShort(n);
    hide Tidy;
    var m, hi, ahead, br := k + 1 + Labels(n.a), k + Labels(n), Ahead(ctx), Around(n, k);
    NodeTidy(n.a, false, ctx, k + 1);
    NodeTidy(n.b, poped, ctx, m);
    var c1, c2 := Lower(n.a, false, ctx, k + 1), Lower(n.b, poped, ctx, m);
    var own, refs := Range(m, hi), Range(m, hi) + ahead;
    ShortEnd(br, c2, ahead, m, hi, poped, k);
    WholeThen(c1, ahead, k + 1, m, Short(k, br, poped, c2), own, refs + {k});
    AsWhole(c1 + Short(k, br, poped, c2), ahead, Range(k + 1, m) + own, Range(k + 1, m) + ahead + (refs + {k}), k, hi);
  }

  /** From the branch on. */
  lemma ShortEnd(br: Elem, c: Code, ahead: set<nat>, lo: nat, hi: nat, poped: bool, k: nat)
    requires br == I(BranchIf(k)) || br == I(BranchUnless(k))
    requires Whole(c, ahead, lo, hi) && k < lo
    ensures Core(Short(k, br, poped, c), ahead, Range(lo, hi), Range(lo, hi) + ahead + {k})
  {
    hide Core, Front, HasSolid;
    var own, refs := Range(lo, hi), Range(lo, hi) + ahead;
    var pop, dup := Unless(poped, [I(Pop)]), Unless(poped, [I(Dup)]);
    var c1 := c + [L(k)];
    LabelCore(k, ahead);
    JoinCore(c, ahead, own, refs, [L(k)], ahead, {}, {});
    assert Front(c1) by { LabelFront(c, k); }
    assert own + {} == own && refs + {} == refs;
    FlatThen(pop, c1, ahead, own, refs);
    BranchPiece(br, pop + c1, ahead, own, refs, k);
    FlatThen(dup, [br] + (pop + c1), ahead, own, refs + {k});
  }

  lemma LabelFront(c: Code, k: nat)
    requires Front(c) && (c != [] ==> HasSolid(c))
    ensures Front(c + [L(k)])
  {
    if c == [] {
      assert c + [L(k)] == [L(k)];
    } else {
      JoinFront(c, [L(k)]);
    }
  }

  /** A piece with code without labels in front. */
  lemma FlatThen(s: Code, b: Code, ahead: set<nat>, own: set<nat>, refs: set<nat>)
    requires forall q :: 0 <= q < |s| ==> s[q].I? && Target(s[q].insn) == None
    requires Core(b, ahead, own, refs) && Front(b)
    ensures Core(s + b, ahead, own, refs) && Front(s + b)
  {
    FlatPiece(s, ahead);
    hide Core, Front, HasSolid;
    if s == [] {
      assert s + b == b;
    } else {
      JoinCore(s, ahead, {}, {}, b, ahead, own, refs);
      assert {} + own == own && {} + refs == refs;
      JoinFront(s, b);
    }
  }

  // ----- what the code of a test has -----

  lemma {:induction false} TestTidy(c: Node, t: nat, e: nat, ctx: Loop, k: nat)
    requires WellFormed(c, ctx.InLoop?) && TidyTest(c) && Outside(ctx, k)
    requires t < k && e < k && t != e && t !in Ahead(ctx) && e !in Ahead(ctx)
    ensures WholeTest(LowerCond(c, t, e, ctx, k), t, e, Ahead(ctx), k, k + CondLabels(c))
    decreases c, 2
  {
    hide WholeTest, Lower, LowerCond, Labels, CondLabels, WellFormed, Ahead;
    if c.And? || c.Or? {
      PairTidy(c, t, e, ctx, k);
    } else {
      assert Tested(c) && Tidy(c);
      TestedShape(c, t, e, ctx, k);
      NodeTidy(c, false, ctx, k);
      TestEnd(Lower(c, false, ctx, k), Ahead(ctx), k, k + Labels(c), t, e);
    }
  }

  lemma TestEnd(v: Code, ahead: set<nat>, lo: nat, hi: nat, t: nat, e: nat)
    requires Whole(v, ahead, lo, hi) && v != [] && t < lo && e < lo && t != e && t !in ahead
    ensures WholeTest(v + [I(BranchUnless(e)), I(Jump(t))], t, e, ahead, lo, hi)
  {
    var b := [I(BranchUnless(e)), I(Jump(t))];
    var own, refs := Range(lo, hi), Range(lo, hi) + ahead;
    assert Piece(b, ahead, {}, {t, e}) && FromBranches(b, t) && !Open(b, -1, |b|) && OpenLast(b) && HasSolid(b) by {
      assert Solid(b, 0);
    }
    assert FromBranches(v + b, t) by {
      hide Closed, Ends, Front, HasSolid;
      PieceRefs(v, ahead, own, refs);
      LaterBranches(v, refs, b, t);
    }
    assert Opens(v + b, own) by {
      hide Piece, Closed, Front, HasSolid;
      assert RefsIn(b, {t, e});
      EndsLong(v);
      JoinOpens(v, own, b, {}, {t, e});
      assert own + {} == own;
    }
    hide Piece, Closed, Ends, Front, HasSolid, Fits, OpenLast, FromBranches, Opens;
    EndsFit(v, b, own, refs, {t, e});
    JoinPiece(v, ahead, own, refs, b, ahead, {}, {t, e}, own);
    JoinFront(v, b);
    JoinSolid(v, b);
    JoinOpen(v, b);
  }

  lemma LaterBranches(a: Code, refs: set<nat>, b: Code, t: nat)
    requires RefsIn(a, refs) && t !in refs && FromBranches(b, t)
    ensures FromBranches(a + b, t)
  {
    NotRefers(a, refs, t);
    hide RefsIn;
    forall q: nat | Refers(a + b, q, t) ensures 0 < q && IsJump(a + b, q) && IsBranch(a + b, q - 1) {
      JoinRefers(a, b, q, t);
      JoinAt(a, b, q);
      if q > 0 { JoinAt(a, b, q - 1); }
    }
  }

  lemma {:induction false} PairTidy(c: Node, t: nat, e: nat, ctx: Loop, k: nat)
    requires (c.And? || c.Or?) && WellFormed(c, ctx.InLoop?) && TidyTest(c) && Outside(ctx, k)
    requires t < k && e < k && t != e && t !in Ahead(ctx) && e !in Ahead(ctx)
    ensures WholeTest(LowerCond(c, t, e, ctx, k), t, e, Ahead(ctx), k, k + CondLabels(c))
    decreases c, 1
  {
    hide WholeTest, Lower, LowerCond, Labels, CondLabels, WellFormed;
    ShortParts(c, ctx.InLoop?);
    PairShape(c, t, e, ctx, k);
    assert TidyTest(c.a) && TidyTest(c.b) by { if c.And? {} else {} }
    var t1, e1, m := First(c, t, true, k), First(c, e, false, k), k + 1 + CondLabels(c.a);
    TestTidy(c.a, t1, e1, ctx, k + 1);
    TestTidy(c.b, t, e, ctx, m);
    PairWhole(LowerCond(c.a, t1, e1, ctx, k + 1), t1, e1, LowerCond(c.b, t, e, ctx, m), t, e, ctx, k, m,
              k + CondLabels(c));
  }

  lemma PairWhole(s: Code, t1: nat, e1: nat, b: Code, t: nat, e: nat, ctx: Loop, k: nat, m: nat, hi: nat)
    requires WholeTest(s, t1, e1, Ahead(ctx), k + 1, m) && WholeTest(b, t, e, Ahead(ctx), m, hi) && k < m <= hi
    requires (t1 == k && e1 == e) || (t1 == t && e1 == k)
    requires Outside(ctx, k) && t < k && e < k && t != e && t !in Ahead(ctx) && e !in Ahead(ctx)
    ensures WholeTest(s + ([L(k)] + b), t, e, Ahead(ctx), k, hi)
  {
    hide CondPiece;
    var ahead := Ahead(ctx);
    var own, own' := Range(k + 1, m), Range(m, hi);
    var refs, refs' := own + ahead + {t1, e1}, own' + ahead + {t, e};
    CondPair(s, t1, e1, ahead, own, refs, k, b, t, e, own', refs');
    CondWider(s + ([L(k)] + b), t, e, ahead, own + Made(t1, k) + own', refs + refs', Range(k, hi),
              Range(k, hi) + ahead + {t, e});
  }

  lemma CondWider(s: Code, t: nat, e: nat, ahead: set<nat>, own: set<nat>, refs: set<nat>, own': set<nat>,
                  refs': set<nat>)
    requires CondPiece(s, t, e, ahead, own, refs) && own <= own' && refs <= refs'
    ensures CondPiece(s, t, e, ahead, own', refs')
  {
    hide Spaced, LeadsAhead, PocketsIn, Owned, Front, HasSolid, FromBranches, Forks, OpenLast;
  }

  lemma {:induction false} IfTidy(n: Node, poped: bool, ctx: Loop, k: nat)
    requires n.If? && WellFormed(n, ctx.InLoop?) && Tidy(n) && Outside(ctx, k)
    ensures Whole(Lower(n, poped, ctx, k), Ahead(ctx), k, k + Labels(n)) && Lower(n, poped, ctx, k) != []
    decreases n, 0
  {
    hide Whole, WholeTest, Lower, LowerCond, Labels, CondLabels, WellFormed, Fork;
    IfParts(n, ctx.InLoop?);
    IfShape(n, poped, ctx, k);
    var k1 := k + 3 + CondLabels(n.cond);
    var k2, hi := k1 + Labels(n.body), k + Labels(n);
    NodeTidy(n.body, poped, ctx, k1);
    NodeTidy(n.els, poped, ctx, k2);
    var s := LowerCond(n.cond, k, k + 1, ctx, k + 3);
    var c1, c2 := Lower(n.body, poped, ctx, k1), Lower(n.els, poped, ctx, k2);
    if Literal(n.cond) {
      LiteralShape(n.cond, k, k + 1, ctx, k + 3);
      if !poped { PlainKept(n.body); }
      PlainStart(n.body, poped, ctx, k1);
      hide Tidy;
      DecidedWhole(if Holds(n.cond) then k else k + 1, c1, c2, ctx, k, k1, k2, hi);
    } else {
      TestTidy(n.cond, k, k + 1, ctx, k + 3);
      hide Tidy;
      ForkWhole(s, c1, c2, ctx, k, k1, k2, hi);
    }
  }

  /** What is plain without its value is so with it. */
  lemma {:induction false} PlainKept(n: Node)
    requires Plain(n, true)
    ensures Plain(n, false)
    decreases n
  {
    match n
    case Block(head, _) => PlainKept(head);
    case _ =>
  }

  /** A conditional whose test is decided. */
  lemma DecidedWhole(x: nat, c1: Code, c2: Code, ctx: Loop, k: nat, k1: nat, k2: nat, hi: nat)
    requires k1 == k + 3 <= k2 <= hi && Outside(ctx, k) && (x == k || x == k + 1)
    requires Whole(c1, Ahead(ctx), k1, k2) && Whole(c2, Ahead(ctx), k2, hi) && Solid(c1, 0)
    ensures Whole([I(Jump(x))] + Fork(k, c1, c2), Ahead(ctx), k, hi)
  {
    hide Core, HasSolid, Starts, Covers, Front;
    var ahead, own0, own1, own2 := Ahead(ctx), Made(x, k), Range(k1, k2), Range(k2, hi);
    var refs1, refs2 := own1 + ahead + {k + 2}, own2 + ahead;
    var a, b, c := [I(Jump(x)), L(k)], c1 + [I(Jump(k + 2)), L(k + 1)], c2 + [L(k + 2)];
    ThenBranch(c1, ahead, k1, k2, k);
    DecidedHead(x, k);
    assert Covers(b, if x == k
        then {} else {x}, ahead + {k + 2}) by { CoversJust(b, k + 1, ahead + {k + 2}); CoversNone(b, ahead + {k + 2}); }
    JoinCore(a, if x == k then {} else {x}, own0, {x}, b, ahead + {k + 2}, own1, refs1);
    CoversSelf([L(k + 2)], ahead);
    LabelCore(k + 2, ahead);
    JoinCore(c2, ahead, own2, refs2, [L(k + 2)], ahead, {}, {});
    assert Covers(c, ahead + {k + 2}, ahead) by { WithinIs(c, -1, |c|, k + 2, |c2|); CoversOne(c, ahead, k + 2); }
    JoinCore(a + b, ahead + {k + 2}, own0 + own1, {x} + refs1, c, ahead, own2 + {}, refs2 + {});
    var s := a + b + c;
    assert s == [I(Jump(x))] + Fork(k, c1, c2);
    SolidThird(s) by { assert s[2] == c1[0]; }
    AsWhole(s, ahead, own0 + own1 + (own2 + {}), {x} + refs1 + (refs2 + {}), k, hi);
  }

  lemma DecidedHead(x: nat, k: nat)
    requires x == k || x == k + 1
    ensures Core([I(Jump(x)), L(k)], if x == k then {} else {x}, Made(x, k), {x})
  {
    var s := [I(Jump(x)), L(k)];
    assert forall q: nat :: (IsJump(s, q) ==> q == 0) && !IsBranch(s, q) && !Paired(s, q);
    assert OnlyFirst(s, x);
    if x == k { WithinIs(s, 0, |s|, k, 1); }
  }

  lemma CoversNone(b: Code, ahead: set<nat>)
    ensures Covers(b, {}, ahead)
  {
  }

  lemma SolidThird(s: Code)
    requires Solid(s, 2) && !IsJump(s, 1)
    ensures Front(s) && HasSolid(s)
  {
  }

  lemma ForkWhole(s: Code, c1: Code, c2: Code, ctx: Loop, k: nat, k1: nat, k2: nat, hi: nat)
    requires k + 3 <= k1 <= k2 <= hi && Outside(ctx, k)
    requires WholeTest(s, k, k + 1, Ahead(ctx), k + 3, k1)
    requires Whole(c1, Ahead(ctx), k1, k2) && Whole(c2, Ahead(ctx), k2, hi)
    ensures Whole(s + Fork(k, c1, c2), Ahead(ctx), k, hi) && s + Fork(k, c1, c2) != []
  {
    hide Core, CondPiece, Front, HasSolid, Starts, Covers;
    var ahead, own0, own1, own2 := Ahead(ctx), Range(k + 3, k1), Range(k1, k2), Range(k2, hi);
    var refs0, refs1, refs2 := own0 + ahead + {k, k + 1}, own1 + ahead + {k + 2}, own2 + ahead;
    var b, c := c1 + [I(Jump(k + 2)), L(k + 1)], c2 + [L(k + 2)];
    ThenBranch(c1, ahead, k1, k2, k);
    CondThen(s, k, k + 1, ahead, own0, refs0, k, b, ahead + {k + 2}, own1, refs1);
    LabelCore(k + 2, ahead);
    CoversSelf([L(k + 2)], ahead);
    JoinCore(c2, ahead, own2, refs2, [L(k + 2)], ahead, {}, {});
    assert Covers(c, ahead + {k + 2}, ahead) by { WithinIs(c, -1, |c|, k + 2, |c2|); CoversOne(c, ahead, k + 2); }
    var a := s + ([L(k)] + b);
    var own, refs := own0 + {k} + own1, refs0 + refs1;
    JoinCore(a, ahead + {k + 2}, own, refs, c, ahead, own2 + {}, refs2 + {});
    JoinFront(a, c);
    JoinSolid(a, c);
    assert a + c == s + Fork(k, c1, c2);
    AsWhole(a + c, ahead, own + (own2 + {}), refs + (refs2 + {}), k, hi);
  }

  lemma CoversSelf(b: Code, ahead: set<nat>)
    ensures Covers(b, ahead, ahead)
  {
  }

  lemma CoversOne(b: Code, ahead: set<nat>, l: nat)
    requires Within(b, -1, |b|, l)
    ensures Covers(b, ahead + {l}, ahead)
  {
  }

  lemma ThenBranch(c: Code, ahead: set<nat>, lo: nat, hi: nat, k: nat)
    requires Whole(c, ahead, lo, hi) && k + 3 <= lo
    ensures var b := c + [I(Jump(k + 2)), L(k + 1)];
            && Core(b, ahead + {k + 2}, Range(lo, hi), Range(lo, hi) + ahead + {k + 2})
            && Starts(b) && Within(b, -1, |b|, k + 1) && Covers(b, ahead, ahead + {k + 2})
  {
    var j := [I(Jump(k + 2)), L(k + 1)];
    var own, refs := Range(lo, hi), Range(lo, hi) + ahead;
    assert Core(j, ahead + {k + 2}, {}, {k + 2}) && Starts(j) by {
      assert forall q: nat :: (IsJump(j, q) ==> q == 0) && !IsBranch(j, q) && !Paired(j, q);
    }
    WithinIs(c + j, -1, |c + j|, k + 1, |c| + 1);
    hide Core, Front, HasSolid, Within;
    JoinCore(c, ahead, own, refs, j, ahead + {k + 2}, {}, {k + 2});
    assert own + {} == own;
    if c == [] {
      assert c + j == j;
    } else {
      JoinFront(c, j);
      assert Front(c + j) ==> Starts(c + j) by { FrontStarts(c + j); }
    }
  }

  lemma FrontStarts(s: Code)
    ensures Front(s) ==> Starts(s)
  {
  }

  // ----- loops -----

  /** Where the code of a loop jumps first. */
  function Entry(k: nat, testFirst: bool): nat {
    if testFirst then k else k + 5
  }

  lemma {:induction false} WhileTidy(n: Node, poped: bool, ctx: Loop, k: nat)
    requires n.While? && WellFormed(n, ctx.InLoop?) && Tidy(n) && Outside(ctx, k)
    ensures Whole(Lower(n, poped, ctx, k), Ahead(ctx), k, k + Labels(n)) && Lower(n, poped, ctx, k) != []
    decreases n, 0
  {
    hide Whole, WholeTest, Lower, LowerCond, Labels, CondLabels, WellFormed, LoopHead, LoopTail;
    WhileParts(n, ctx.InLoop?);
    WhileShape(n, poped, ctx, k);
    var k1, inner, t, e := k + Own(n), Inside(k), Onward(n, k, true), Onward(n, k, false);
    var k2, hi := k1 + Labels(n.body), k + Labels(n);
    var body, test := Lower(n.body, true, inner, k1), LowerCond(n.cond, t, e, inner, k2);
    NodeTidy(n.body, true, inner, k1);
    if Literal(n.cond) {
      var x := Onward(n, k, Holds(n.cond));
      assert test == [I(Jump(x))] && CondLabels(n.cond) == 0 by { LiteralShape(n.cond, t, e, inner, k2); }
      if x == k + 1 { PlainStart(n.body, true, inner, k1); }
      hide Tidy;
      EndlessWhole(body, x, poped, ctx, k, k1, hi, n.testFirst);
    } else {
      TestTidy(n.cond, t, e, inner, k2);
      hide Tidy;
      LoopWhole(body, test, t, e, poped, ctx, k, k1, k2, hi, n.testFirst);
    }
  }

  lemma LiteralShape(c: Node, t: nat, e: nat, ctx: Loop, k: nat)
    requires Literal(c)
    ensures LowerCond(c, t, e, ctx, k) == [I(Jump(if Holds(c) then t else e))] && CondLabels(c) == 0
  {
  }

  /** The test of a loop and what follows it. */
  lemma LoopEnd(test: Code, t: nat, e: nat, poped: bool, ahead: set<nat>, k: nat, lo: nat, hi: nat)
    requires k + 5 <= lo && ((t == k + 1 && e == k + 3) || (t == k + 3 && e == k + 1))
    requires WholeTest(test, t, e, {k + 2}, lo, hi)
    ensures var y := test + LoopTail(k, poped);
            && Core(y, ahead, Range(lo, hi) + Made(t, k + 3), Range(lo, hi) + {k + 2} + {t, e})
            && Within(y, -1, |y|, k + 2)
  {
    hide Core, CondPiece, Front, HasSolid, Starts, Covers, Within;
    var f := [I(PutNil), L(k + 2)] + Unless(!poped, [I(Pop)]);
    var own, refs := Range(lo, hi), Range(lo, hi) + {k + 2} + {t, e};
    TailPiece(k, poped, ahead);
    CondThen(test, t, e, {k + 2}, own, refs, k + 3, f, ahead, {}, {});
    assert own + Made(t, k + 3) + {} == own + Made(t, k + 3) && refs + {} == refs;
    WithinLater(test + [L(k + 3)], f, k + 2);
    assert test + ([L(k + 3)] + f) == test + LoopTail(k, poped) == test + [L(k + 3)] + f;
  }

  lemma LoopWhole(body: Code, test: Code, t: nat, e: nat, poped: bool, ctx: Loop, k: nat, k1: nat, k2: nat, hi: nat,
                  testFirst: bool)
    requires k1 == k + (if testFirst then 5 else 6) && k1 <= k2 <= hi && Outside(ctx, k)
    requires (t == k + 1 && e == k + 3) || (t == k + 3 && e == k + 1)
    requires Whole(body, {k + 2}, k1, k2) && WholeTest(test, t, e, {k + 2}, k2, hi)
    ensures Whole(LoopHead(k, testFirst) + (body + ([L(k)] + (test + LoopTail(k, poped)))), Ahead(ctx), k, hi)
  {
    hide Whole, WholeTest, Core, Front, HasSolid, Within, LoopHead, LoopTail;
    var y, own, refs := test + LoopTail(k, poped), Range(k2, hi) + Made(t, k + 3), Range(k2, hi) + {k + 2} + {t, e};
    LoopEnd(test, t, e, poped, Ahead(ctx), k, k2, hi);
    LoopRest(body, y, Ahead(ctx), own, refs, k, k1, k2, testFirst);
    AsWhole(LoopHead(k, testFirst) + (body + ([L(k)] + y)), Ahead(ctx),
            Range(k1, k2) + own, Range(k1, k2) + {k + 2} + refs + {k, Entry(k, testFirst)}, k, hi);
  }

  lemma TailPiece(k: nat, poped: bool, ahead: set<nat>)
    ensures var f := [I(PutNil), L(k + 2)] + Unless(!poped, [I(Pop)]);
            && Core(f, ahead, {}, {}) && Starts(f) && HasSolid(f) && Covers(f, {k + 2}, ahead)
            && Within(f, -1, |f|, k + 2)
  {
    var f := [I(PutNil), L(k + 2)] + Unless(!poped, [I(Pop)]);
    assert forall q: nat :: !IsJump(f, q) && !IsBranch(f, q) && !Paired(f, q);
    assert Solid(f, 0);
    WithinIs(f, -1, |f|, k + 2, 1);
  }

  lemma WithinLater(a: Code, b: Code, l: nat)
    requires Within(b, -1, |b|, l)
    ensures Within(a + b, -1, |a + b|, l)
  {
    WithinRight(a, b, l);
    WithinWider(a + b, |a| - 1, |a + b|, -1, |a + b|, l);
  }

  /** A loop from its entry on, given the piece behind the label where next goes. */
  lemma LoopRest(body: Code, y: Code, ahead: set<nat>, own: set<nat>, refs: set<nat>, k: nat, k1: nat, k2: nat,
                 testFirst: bool)
    requires k1 == k + (if testFirst then 5 else 6) && Whole(body, {k + 2}, k1, k2)
    requires Core(y, ahead, own, refs) && Within(y, -1, |y|, k + 2)
    requires Range(k1, k2) !! refs && own !! Range(k1, k2) + {k, k + 2, Entry(k, testFirst)}
    ensures var s := LoopHead(k, testFirst) + (body + ([L(k)] + y));
            && Core(s, ahead, Range(k1, k2) + own, Range(k1, k2) + {k + 2} + refs + {k, Entry(k, testFirst)})
            && Front(s) && HasSolid(s)
  {
    hide Core, Front, HasSolid, Covers, Within;
    var z, head, j := [L(k)] + y, LoopHead(k, testFirst), {k, Entry(k, testFirst)};
    LabelCore(k, ahead);
    assert Covers(y, ahead, ahead) by { CoversSelf(y, ahead); }
    JoinCore([L(k)], ahead, {}, {}, y, ahead, own, refs);
    assert Covers(z, {k + 2}, ahead) by { WithinLater([L(k)], y, k + 2); CoversJust(z, k + 2, ahead); }
    JoinCore(body, {k + 2}, Range(k1, k2), Range(k1, k2) + {k + 2}, z, ahead, {} + own, {} + refs);
    assert Covers(body + z, {k}, ahead) by {
      WithinIs(body + z, -1, |body + z|, k, |body|);
      CoversJust(body + z, k, ahead);
    }
    HeadPiece(k, testFirst);
    JoinCore(head, {k}, {}, j, body + z, ahead, Range(k1, k2) + ({} + own), Range(k1, k2) + {k + 2} + ({} + refs));
    JoinFront(head, body + z);
    JoinSolid(head, body + z);
    var s := head + (body + z);
    assert {} + (Range(k1, k2) + ({} + own)) == Range(k1, k2) + own;
    assert j + (Range(k1, k2) + {k + 2} + ({} + refs)) == Range(k1, k2) + {k + 2} + refs + j;
  }

  lemma CoversJust(b: Code, l: nat, ahead: set<nat>)
    requires Within(b, -1, |b|, l)
    ensures Covers(b, {l}, ahead)
  {
  }

  lemma HeadPiece(k: nat, testFirst: bool)
    ensures var s := LoopHead(k, testFirst);
            && Core(s, {k}, {}, {k, Entry(k, testFirst)}) && Front(s) && HasSolid(s)
  {
    var s := LoopHead(k, testFirst);
    assert forall q: nat :: (IsJump(s, q) ==> q == 0 || q == 4) && !IsBranch(s, q) && !Paired(s, q);
    assert Solid(s, 1) && s[3] == I(Pop);
    if !testFirst { WithinIs(s, 0, |s|, k + 5, 5); }
  }

  /** A loop whose test is decided. */
  lemma EndlessWhole(body: Code, x: nat, poped: bool, ctx: Loop, k: nat, k1: nat, hi: nat, testFirst: bool)
    requires k1 == k + (if testFirst then 5 else 6) && k1 <= hi && Outside(ctx, k)
    requires Whole(body, {k + 2}, k1, hi) && (x == k + 3 || (x == k + 1 && Solid(body, 0)))
    ensures Whole(LoopHead(k, testFirst) + (body + ([L(k)] + ([I(Jump(x))] + LoopTail(k, poped)))), Ahead(ctx), k, hi)
  {
    hide Core, Front, HasSolid, Covers, Within, FirmIn;
    var ahead := if x == k + 3 then Ahead(ctx) else Ahead(ctx) + {x};
    var y := [I(Jump(x))] + LoopTail(k, poped);
    var s := LoopHead(k, testFirst) + (body + ([L(k)] + y));
    var own, refs := Range(k1, hi) + Made(x, k + 3), Range(k1, hi) + {k + 2} + {x} + {k, Entry(k, testFirst)};
    EndlessTail(x, k, poped, ahead);
    LoopRest(body, y, ahead, Made(x, k + 3), {x}, k, k1, hi, testFirst);
    if x == k + 1 {
      var h := |LoopHead(k, testFirst)|;
      assert FirmIn(s, x) by {
        assert s[h - 1] == L(k + 1) && s[h] == body[0];
        SolidBehind(s, h - 1, x);
      }
      AheadFirm(s, Ahead(ctx), own, refs, x);
    }
    AsWhole(s, Ahead(ctx), own, refs, k, hi);
  }

  lemma SolidBehind(s: Code, q: nat, l: nat)
    requires Solid(s, q + 1) && s[q] == L(l)
    ensures FirmIn(s, l)
  {
  }

  lemma EndlessTail(x: nat, k: nat, poped: bool, ahead: set<nat>)
    requires x == k + 3 || x in ahead
    ensures var y := [I(Jump(x))] + LoopTail(k, poped); Core(y, ahead, Made(x, k + 3), {x}) && Within(y, -1, |y|, k + 2)
  {
    var y := [I(Jump(x))] + LoopTail(k, poped);
    assert forall q: nat :: (IsJump(y, q) ==> q == 0) && !IsBranch(y, q) && !Paired(y, q);
    WithinIs(y, -1, |y|, k + 2, 3);
    assert OnlyFirst(y, x);
    if x == k + 3 { WithinIs(y, 0, |y|, x, 1); }
  }

  /** The code of a plain node starts with something solid. */
  lemma {:induction false} PlainStart(n: Node, poped: bool, ctx: Loop, k: nat)
    requires WellFormed(n, ctx.InLoop?) && Plain(n, poped)
    ensures Solid(Lower(n, poped, ctx, k), 0)
    decreases n, 0
  {
    hide Lower, LowerCond, Labels, CondLabels, WellFormed;
    match n
    case LAsgn(_, value) =>
      AsgnParts(n, ctx.InLoop?);
      AsgnShape(n, poped, ctx, k);
      PlainStart(value, false, ctx, k);
    case Block(head, next) =>
      BlockParts(n, ctx.InLoop?);
      BlockShape(n, poped, ctx, k);
      PlainStart(head, poped || !next.Absent?, ctx, k);
    case If(cond, _, _) =>
      IfParts(n, ctx.InLoop?);
      IfShape(n, poped, ctx, k);
      PlainTestStart(cond, k, k + 1, ctx, k + 3);
    case And(a, _) =>
      ShortParts(n, ctx.InLoop?);
      ShortShape(n, poped, ctx, k);
      PlainStart(a, false, ctx, k + 1);
    case Or(a, _) =>
      ShortParts(n, ctx.InLoop?);
      ShortShape(n, poped, ctx, k);
      PlainStart(a, false, ctx, k + 1);
    case While(_, _, _, _) =>
    case Break(_) =>
    case _ =>
      LeafShape(n, poped, ctx, k);
  }

  lemma {:induction false} PlainTestStart(c: Node, t: nat, e: nat, ctx: Loop, k: nat)
    requires WellFormed(c, ctx.InLoop?) && PlainTest(c)
    ensures Solid(LowerCond(c, t, e, ctx, k), 0)
    decreases c, 1
  {
    hide Lower, LowerCond, Labels, CondLabels, WellFormed;
    if c.And? || c.Or? {
      ShortParts(c, ctx.InLoop?);
      PairShape(c, t, e, ctx, k);
      assert PlainTest(c.a) by { if c.And? {} else {} }
      PlainTestStart(c.a, First(c, t, true, k), First(c, e, false, k), ctx, k + 1);
    } else {
      assert Tested(c) && Plain(c, false);
      TestedShape(c, t, e, ctx, k);
      PlainStart(c, false, ctx, k);
    }
  }

  // ----- the compiled program -----

  lemma CompileOnce(n: Node)
    requires WellFormed(n, false)
    ensures Once(Compile(n))
  {
    var c := Compile(n);
    hide Compile, WellFormed, Defs, Refs;
    forall a, b | 0 <= a < |c| && 0 <= b < |c| && c[a].L? && c[a] == c[b] ensures a == b {
      CompileLabels(n, c[a].l);
      FindOnce(c, c[a].l, a);
      FindOnce(c, c[a].l, b);
    }
  }

  lemma CompileCore(n: Node)
    requires WellFormed(n, false) && Tidy(n)
    ensures Core(Compile(n), {}, Range(0, Labels(n)) + {}, Range(0, Labels(n)) + {} + {})
  {
    hide Core, Lower, Labels, WellFormed, Tidy;
    NodeTidy(n, false, NoLoop, 0);
    FlatPiece([I(Leave)], {});
    WholeThen(Lower(n, false, NoLoop, 0), {}, 0, Labels(n), [I(Leave)], {}, {});
  }

  lemma WithinFind(c: Code, p: int, o: nat, l: nat)
    requires Once(c) && Within(c, p, o, l)
    ensures p < Find(c, l) < o && Find(c, l) < |c|
  {
    var r: nat :| p < r < o && r < |c| && c[r] == L(l);
    FindOnly(c, l, r);
  }

  lemma FirmFind(c: Code, l: nat)
    requires Once(c) && FirmIn(c, l)
    ensures Firm(c, l)
  {
    var r: nat :| Solid(c, r + 1) && c[r] == L(l);
    FindOnly(c, l, r);
    hide Find;
    LandingIs(c, l, r + 1);
  }

  lemma CoreForward(c: Code, own: set<nat>, refs: set<nat>)
    requires Once(c) && Core(c, {}, own, refs)
    ensures Forward(c)
  {
    hide Once, Within, FirmIn, Find, Firm;
    forall q: nat | Landed(c, q) ensures Find(c, c[q].insn.l) > q || Firm(c, c[q].insn.l) {
      assert Reached(c, q);
      var l := c[q].insn.l;
      if Within(c, q, |c|, l) { WithinFind(c, q, |c|, l); } else { FirmFind(c, l); }
    }
  }

  lemma CorePockets(c: Code, own: set<nat>, refs: set<nat>)
    requires Once(c) && Core(c, {}, own, refs)
    ensures Pockets(c)
  {
    hide Once, Within, Find, Open, Paired;
    forall p: nat, o: nat | IsBranch(c, p) && p < o && IsJump(c, o) && Open(c, p, o)
      ensures || o == p + 1
              || p < Find(c, Target(c[p].insn).value) < o
              || (o == p + 3 && Paired(c, p + 1))
    {
      var l := BranchTarget(c, p);
      if Within(c, p, o, l) { WithinFind(c, p, o, l); }
    }
  }

  /** A tidy tree is compiled to a neat list. */
  lemma CompileNeat(n: Node)
    requires WellFormed(n, false) && Tidy(n)
    ensures Neat(Compile(n))
  {
    hide Compile, WellFormed, Tidy, Sealed, Once, Core, Forward, Pockets;
    var c := Compile(n);
    CompileSealed(n);
    CompileOnce(n);
    CompileCore(n);
    var own, refs := Range(0, Labels(n)) + {}, Range(0, Labels(n)) + {} + {};
    CoreForward(c, own, refs);
    CorePockets(c, own, refs);
    CoreOwned(c, own, refs);
  }

  lemma CoreOwned(c: Code, own: set<nat>, refs: set<nat>)
    requires Core(c, {}, own, refs)
    ensures Spaced(c) && Owned(c)
  {
    hide Spaced, Owned;
  }

  /** On the list of a tidy tree iseq_optimize returns, and merges no jump that something else leads to. */
  lemma TidyPass(n: Node)
    requires WellFormed(n, false) && Tidy(n)
    ensures AllEnd(Compile(n), 0) && Clean(Compile(n), 0)
  {
    hide Compile, WellFormed, Tidy, Neat;
    CompileNeat(n);
    NeatPass(Compile(n));
  }
}
