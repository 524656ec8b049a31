/** Two programs on which iseq_optimize does not do what it is for: one whose meaning it changes, and one
    on which it does not return. */
module OptimizeFailures {
  import opened Nodes
  import opened Options
  import opened Lowering
  import opened Machine
  import opened Peephole
  import opened PeepholeStep
  import opened OptimizePass
  import opened NeatLists
  import opened TidyTrees
  import opened Optimized

  // ----- a lost branch -----

  /** unless a || true || b; c = 7; end; c */
  const UNLESS: Node :=
    Block(If(Or(LVar(0), Or(TrueLit, LVar(1))), Absent, LAsgn(2, Lit(7))), Block(LVar(2), Absent))

  /** Its list, once the first branch leads to x, the jump behind it to y and the next one to z. */
  function Listed(x: nat, y: nat, z: nat): Code {
    [I(GetLocal(0)), I(BranchUnless(x)), I(Jump(y)), L(3), I(Jump(z)), L(4), I(GetLocal(1)), I(BranchUnless(1)),
     I(Jump(0)), L(0), I(Jump(2)), L(1), I(PutObject(Obj(7))), I(SetLocal(2)), L(2), I(GetLocal(2)), I(Leave)]
  }

  /** Once the jump over label 0 has been dropped. */
  const DROPPED: Code := [
    I(GetLocal(0)), I(BranchUnless(0)), I(Jump(2)), L(3), I(Jump(2)), L(4), I(GetLocal(1)), I(BranchUnless(1)),
    L(0), I(Jump(2)), L(1), I(PutObject(Obj(7))), I(SetLocal(2)), L(2), I(GetLocal(2)), I(Leave)
  ]

  /** Once the jump behind label 0, to which the first branch leads, has been merged with the last one. */
  const MERGED: Code := [
    I(GetLocal(0)), I(BranchUnless(0)), I(Jump(2)), L(3), I(Jump(2)), L(4), I(GetLocal(1)), I(BranchIf(2)),
    L(0), L(1), I(PutObject(Obj(7))), I(SetLocal(2)), L(2), I(GetLocal(2)), I(Leave)
  ]

  lemma LeafTest(i: nat, t: nat, e: nat, k: nat)
    ensures CondLabels(LVar(i)) == 0
    ensures LowerCond(LVar(i), t, e, NoLoop, k) == [I(GetLocal(i)), I(BranchUnless(e)), I(Jump(t))]
  {
    TestedShape(LVar(i), t, e, NoLoop, k);
    LeafShape(LVar(i), false, NoLoop, k);
  }

  lemma UnlessTest()
    ensures CondLabels(UNLESS.head.cond) == 2
    ensures LowerCond(UNLESS.head.cond, 0, 1, NoLoop, 3) == Listed(3, 0, 0)[..9]
  {
    hide Lower, LowerCond, CondLabels, Labels;
    var c := UNLESS.head.cond;
    PairShape(c, 0, 1, NoLoop, 3);
    LeafTest(0, 0, 3, 4);
    PairShape(c.b, 0, 1, NoLoop, 4);
    LeafTest(1, 0, 1, 5);
    LiteralShape(TrueLit, 0, 4, NoLoop, 5);
    ShortParts(c.b, false);
    ShortParts(c, false);
    assert LowerCond(c.b, 0, 1, NoLoop, 4)
        == [I(Jump(0)), L(4), I(GetLocal(1)), I(BranchUnless(1)), I(Jump(0))];
  }

  lemma UnlessList()
    ensures Compile(UNLESS) == Listed(3, 0, 0)
  {
    hide Lower, Labels, LowerCond, CondLabels, WellFormed;
    var n := UNLESS.head;
    UnlessTest();
    IfShape(n, true, NoLoop, 0);
    LeafShape(Absent, true, NoLoop, 5);
    AsgnShape(n.els, true, NoLoop, 5);
    LeafShape(Lit(7), false, NoLoop, 5);
    BlockShape(UNLESS, false, NoLoop, 0);
    BlockShape(UNLESS.next, false, NoLoop, Labels(n));
    LeafShape(LVar(2), false, NoLoop, Labels(n));
    assert Lower(n, true, NoLoop, 0) == Listed(3, 0, 0)[..15];
  }

  /** Where label l leads, which comes first at q. */
  lemma Lands(c: Code, l: nat, q: nat, d: nat)
    requires q < d < |c| && c[q] == L(l) && !c[d].L?
    requires forall j :: 0 <= j < q ==> c[j] != L(l)
    requires forall j :: q < j < d ==> c[j].L?
    ensures Dest(c, l) == d
  {
    FindFirst(c, l, q);
    LandingIs(c, l, d);
  }

  lemma ListedPlaces(x: nat, y: nat, z: nat)
    ensures var c := Listed(x, y, z);
            && Dest(c, 3) == 4 && Dest(c, 0) == 10 && Dest(c, 1) == 12 && Dest(c, 2) == 15
            && Next(c, 3) == 4 && Next(c, 5) == 6 && Next(c, 9) == 10
            && Prev(c, 2) == Some(1) && Prev(c, 4) == Some(2)
  {
    var c := Listed(x, y, z);
    hide Dest;
    Lands(c, 3, 3, 4);
    Lands(c, 0, 9, 10);
    Lands(c, 1, 11, 12);
    Lands(c, 2, 14, 15);
  }

  /** The pass at element i of c goes on at element j of c1. */
  ghost predicate GoesOn(c: Code, i: nat, c1: Code, j: nat) {
    && i <= |c| && j <= |c1| && PassFrom(c, i) == PassFrom(c1, j)
    && (AllEnd(c1, j) ==> AllEnd(c, i)) && (Clean(c, i) ==> Clean(c1, j))
  }

  lemma OverLabel(c: Code, i: nat)
    requires i < |c| && c[i].L?
    ensures GoesOn(c, i, c, i + 1)
  {
  }

  lemma OverPlain(c: Code, i: nat)
    requires i < |c| && c[i].I? && !IsJump(c, i) && !IsBranch(c, i)
    ensures GoesOn(c, i, c, i + 1)
  {
    hide RetryEnds;
    PlainIs(c, i);
    assert Behind(i, Kept) == i + 1;
  }

  lemma OverBranch(c: Code, i: nat, c1: Code)
    requires IsBranch(c, i)
    requires var d := Dest(c, Target(c[i].insn).value); c1 == if IsJump(c, d) then Threaded(c, i, c[d].insn.l) else c
    ensures GoesOn(c, i, c1, i + 1)
  {
    hide Dest;
    CalledSize(c, i);
    assert Called(c, i) == (c1, Kept) && RetryEnds(c, i);
    hide Called, RetryEnds, Unjumped;
    assert Behind(i, Kept) == i + 1;
  }

  /** A jump that settles at l after one retry, or at once. */
  lemma OverJump(c: Code, i: nat, l: nat, c1: Code, kind: Rewrite)
    requires IsJump(c, i) && LeadsOn(c, i, l).None?
    requires l == c[i].insn.l || LeadsOn(c, i, c[i].insn.l) == Some(l)
    requires LastRound(c[i := I(Jump(l))], i) == (c1, kind) && kind != Inverted
    ensures Behind(i, kind) <= |c1| && GoesOn(c, i, c1, Behind(i, kind))
  {
    var l0 := c[i].insn.l;
    hide LeadsOn, LastRound, Unjumped, AllEnd, Clean, PassFrom;
    CalledSize(c, i);
    assert Chase(c, i, l, 1).None?;
    assert Settle(c, i, l0, |c| + 1) == l && RetryEnds(c, i) by {
      assert Settle(c, i, l, |c|) == l && Settle(c, i, l, |c| + 1) == l;
      if l != l0 { assert Chase(c, i, l0, 2) == Chase(c, i, l, 1); }
    }
    assert Called(c, i) == (c1, kind);
    hide Called, RetryEnds, Settle;
    PassOn(c, i);
  }

  lemma PassOn(c: Code, i: nat)
    requires i < |c| && c[i].I? && RetryEnds(c, i)
    requires Called(c, i).1 == Inverted ==> Unjumped(c, i)
    ensures var (c1, kind) := Called(c, i); Behind(i, kind) <= |c1| && GoesOn(c, i, c1, Behind(i, kind))
  {
    hide Called, RetryEnds, Unjumped;
    CalledSize(c, i);
  }

  lemma GoesFurther(c: Code, i: nat, c1: Code, j: nat, c2: Code, k: nat)
    requires GoesOn(c, i, c1, j) && GoesOn(c1, j, c2, k)
    ensures GoesOn(c, i, c2, k)
  {
    hide PassFrom, AllEnd, Clean;
  }

  lemma FirstBranch()
    ensures GoesOn(Listed(3, 0, 0), 1, Listed(0, 0, 0), 2)
  {
    hide Dest, Next, Prev, GoesOn;
    ListedPlaces(3, 0, 0);
    assert Listed(0, 0, 0) == Threaded(Listed(3, 0, 0), 1, 0);
    OverBranch(Listed(3, 0, 0), 1, Listed(0, 0, 0));
  }

  lemma FirstJump()
    ensures GoesOn(Listed(0, 0, 0), 2, Listed(0, 2, 0), 3)
  {
    hide Dest, Next, Prev, GoesOn;
    ListedPlaces(0, 0, 0);
    ListedPlaces(0, 2, 0);
    var c, c1 := Listed(0, 0, 0), Listed(0, 2, 0);
    assert c1 == c[2 := I(Jump(2))];
    OverJump(c, 2, 2, c1, Kept);
  }

  lemma SecondJump()
    ensures GoesOn(Listed(0, 2, 0), 4, Listed(0, 2, 2), 5)
  {
    hide Dest, Next, Prev, GoesOn;
    ListedPlaces(0, 2, 0);
    ListedPlaces(0, 2, 2);
    var c, c1 := Listed(0, 2, 0), Listed(0, 2, 2);
    assert c1 == c[4 := I(Jump(2))];
    OverJump(c, 4, 2, c1, Kept);
  }

  /** The calls in front of the second label. */
  lemma FirstCalls()
    ensures GoesOn(Listed(3, 0, 0), 0, Listed(0, 2, 2), 5)
  {
    hide GoesOn;
    var c0, c1, c2, c3 := Listed(3, 0, 0), Listed(0, 0, 0), Listed(0, 2, 0), Listed(0, 2, 2);
    OverPlain(c0, 0);
    OverLabel(c2, 3);
    hide Listed;
    FirstBranch();
    FirstJump();
    SecondJump();
    GoesFurther(c0, 0, c0, 1, c1, 2);
    GoesFurther(c0, 0, c1, 2, c2, 3);
    GoesFurther(c0, 0, c2, 3, c2, 4);
    GoesFurther(c0, 0, c2, 4, c3, 5);
  }

  lemma UselessJump()
    ensures GoesOn(Listed(0, 2, 2), 8, DROPPED, 8)
  {
    hide Dest, Next, Prev, GoesOn;
    var c := Listed(0, 2, 2);
    ListedPlaces(0, 2, 2);
    assert c[8 := I(Jump(0))] == c;
    assert Remove(c, 8) == DROPPED;
    OverJump(c, 8, 0, DROPPED, Removed);
  }

  lemma SecondBranch()
    ensures GoesOn(Listed(0, 2, 2), 7, Listed(0, 2, 2), 8)
  {
    hide Dest, Next, Prev, GoesOn;
    ListedPlaces(0, 2, 2);
    OverBranch(Listed(0, 2, 2), 7, Listed(0, 2, 2));
  }

  /** The calls up to the jump behind label 0. */
  lemma NextCalls()
    ensures GoesOn(Listed(0, 2, 2), 5, DROPPED, 9)
  {
    hide GoesOn;
    var c := Listed(0, 2, 2);
    OverLabel(c, 5);
    OverPlain(c, 6);
    OverLabel(DROPPED, 8);
    hide Listed;
    SecondBranch();
    UselessJump();
    GoesFurther(c, 5, c, 6, c, 7);
    GoesFurther(c, 5, c, 7, c, 8);
    GoesFurther(c, 5, c, 8, DROPPED, 8);
    GoesFurther(c, 5, DROPPED, 8, DROPPED, 9);
  }

  lemma DroppedPlaces()
    ensures Dest(DROPPED, 0) == 9 && Dest(DROPPED, 1) == 11 && Dest(DROPPED, 2) == 14
    ensures Next(DROPPED, 10) == 11 && Prev(DROPPED, 9) == Some(7)
  {
    hide Dest;
    Lands(DROPPED, 0, 8, 9);
    Lands(DROPPED, 1, 10, 11);
    Lands(DROPPED, 2, 13, 14);
  }

  /** The call that merges the jump behind label 0 with the branch in front of it. */
  lemma LastCall()
    ensures Called(DROPPED, 9) == (MERGED, Inverted) && !Unjumped(DROPPED, 9) && RetryEnds(DROPPED, 9)
  {
    hide Dest, Next, Prev;
    DroppedPlaces();
    var c := DROPPED;
    assert Target(c[1].insn) == Some(0);
    assert LeadsOn(c, 9, 2).None?;
    assert Chase(c, 9, 2, 1).None?;
    assert Settle(c, 9, 2, |c| + 1) == 2;
    assert c[9 := I(Jump(2))] == c;
    assert Remove(Flipped(c, 7, 9), 9) == MERGED;
  }

  lemma MergedPlaces()
    ensures Dest(MERGED, 0) == 10 && Dest(MERGED, 2) == 13
    ensures Next(MERGED, 0) == 0 && Next(MERGED, 1) == 1 && Next(MERGED, 11) == 11
    ensures Next(MERGED, 12) == 13 && Next(MERGED, 14) == 14
  {
    hide Dest;
    Lands(MERGED, 0, 8, 10);
    Lands(MERGED, 2, 12, 13);
  }

  /** Nothing happens behind it. */
  lemma {:induction false} NoMoreCalls(i: nat)
    requires 9 <= i <= 15
    ensures PassFrom(MERGED, i) == MERGED && AllEnd(MERGED, i)
    decreases 15 - i
  {
    if i < 15 {
      NoMoreCalls(i + 1);
      StraightOn(i);
    }
  }

  lemma StraightOn(i: nat)
    requires 9 <= i < 15
    ensures GoesOn(MERGED, i, MERGED, i + 1)
  {
    hide GoesOn;
    if MERGED[i].L? { OverLabel(MERGED, i); } else { OverPlain(MERGED, i); }
  }

  /** iseq_optimize returns on the list, and on the way merges a jump that something leads to. */
  lemma UnlessPass()
    ensures AllEnd(Compile(UNLESS), 0) && PassFrom(Compile(UNLESS), 0) == MERGED && !Clean(Compile(UNLESS), 0)
  {
    hide Compile, Called, RetryEnds, Unjumped;
    UnlessList();
    FirstCalls();
    NextCalls();
    LastCall();
    NoMoreCalls(9);
    hide Listed;
    CalledSize(DROPPED, 9);
    GoesFurther(Listed(3, 0, 0), 0, Listed(0, 2, 2), 5, DROPPED, 9);
  }

  // ----- what is lost -----

  lemma {:induction false} ResultOnce(c: Code, depth: map<nat, int>, s: State, m: nat, n: nat)
    requires Result(c, depth, s, m).Some? && Result(c, depth, s, n).Some?
    ensures Result(c, depth, s, m) == Result(c, depth, s, n)
    decreases m
  {
    hide Succ, AtLeaveOf;
    if !AtLeaveOf(c, s) { ResultOnce(c, depth, Succ(c, depth, s).value, m - 1, n - 1); }
  }

  /** A list gives one result at most. */
  lemma GivesOnce(c: Code, depth: map<nat, int>, s: State, f: Final, g: Final)
    requires Gives(c, depth, s, g) && f != g
    ensures !Gives(c, depth, s, f)
  {
    hide Result;
    var n: nat :| Result(c, depth, s, n) == Some(g);
    forall m: nat ensures Result(c, depth, s, m) != Some(f) {
      if Result(c, depth, s, m).Some? { ResultOnce(c, depth, s, m, n); }
    }
  }

  lemma MergedElems()
    ensures var c := MERGED;
            && |c| == 15 && c[0] == I(GetLocal(0)) && c[1] == I(BranchUnless(0)) && c[10] == I(PutObject(Obj(7)))
            && c[11] == I(SetLocal(2)) && c[13] == I(GetLocal(2)) && c[14] == I(Leave)
  {
  }

  lemma MergedTail(depth: map<nat, int>, env: Env, v: Value)
    requires Get(env, 2) == v
    ensures Gives(MERGED, depth, State(13, [], env), Final([v], env))
  {
    hide Dest, Next, Gives, Get, MERGED;
    MergedPlaces();
    MergedElems();
    var c, f := MERGED, Final([v], env);
    var none: seq<Value> := [];
    assert none + [v] == [v];
    GivesHere(c, depth, State(14, [v], env));
    GivesStep(c, depth, State(13, [], env), State(14, [v], env), f);
  }

  lemma MergedEnd(depth: map<nat, int>, env: Env)
    ensures Gives(MERGED, depth, State(10, [], env), Final([Obj(7)], env[2 := Obj(7)]))
  {
    hide Dest, Next, Gives, MERGED;
    MergedPlaces();
    MergedElems();
    var c, env1 := MERGED, env[2 := Obj(7)];
    var none: seq<Value> := [];
    assert none + [Obj(7)] == [Obj(7)] && [Obj(7)][..0] == none;
    MergedTail(depth, env1, Obj(7));
    GivesStep(c, depth, State(11, [Obj(7)], env), State(13, [], env1), Final([Obj(7)], env1));
    GivesStep(c, depth, State(10, [], env), State(11, [Obj(7)], env), Final([Obj(7)], env1));
  }

  lemma MergedGives(depth: map<nat, int>)
    ensures Gives(MERGED, depth, Begin(MERGED, [], map[]), Final([Obj(7)], map[2 := Obj(7)]))
  {
    hide Dest, Next, Gives, MERGED;
    MergedPlaces();
    MergedElems();
    var c, f := MERGED, Final([Obj(7)], map[2 := Obj(7)]);
    var none: seq<Value> := [];
    var env: Env := map[];
    assert none + [NilV] == [NilV] && Get(env, 0) == NilV;
    MergedEnd(depth, env);
    GivesStep(c, depth, State(1, [NilV], env), State(10, [], env), f);
    GivesStep(c, depth, State(0, [], env), State(1, [NilV], env), f);
  }

  lemma TestMeans()
    ensures Eval(UNLESS.head.cond, map[], 0) == Some(Normal(TrueV, map[]))
  {
    hide Eval;
    var c := UNLESS.head.cond;
    EvalShort(c, map[], 0);
    EvalShort(c.b, map[], 0);
    EvalLeaves();
  }

  lemma EvalLeaves()
    ensures Eval(LVar(0), map[], 0) == Some(Normal(NilV, map[])) && Eval(LVar(2), map[], 0) == Some(Normal(NilV, map[]))
    ensures Eval(TrueLit, map[], 0) == Some(Normal(TrueV, map[])) && Eval(Absent, map[], 0) == Some(Normal(NilV, map[]))
  {
  }

  lemma UnlessMeans()
    ensures Eval(UNLESS, map[], 0) == Some(Normal(NilV, map[]))
  {
    hide Eval;
    TestMeans();
    EvalLeaves();
    EvalBlock(UNLESS, map[], 0);
    EvalIf(UNLESS.head, map[], 0);
    EvalBlock(UNLESS.next, map[], 0);
  }

  lemma UnlessWell(inLoop: bool)
    ensures WellFormed(UNLESS, inLoop)
  {
    var n := UNLESS.head;
    assert WellFormed(n.cond.b, inLoop);
    assert WellFormed(n.cond, inLoop) && WellFormed(n.els.value, inLoop);
    assert WellFormed(n, inLoop) && WellFormed(UNLESS.next, inLoop);
  }

  /** The value of the tree is lost: with a nil it means nil, for true holds and c is never assigned, but
      the list left gives 7. */
  lemma UnlessLost()
    ensures WellFormed(UNLESS, false) && Eval(UNLESS, map[], 0) == Some(Normal(NilV, map[]))
    ensures var c' := PassFrom(Compile(UNLESS), 0);
            && !Gives(c', Recorded(UNLESS), Begin(c', [], map[]), Final([NilV], map[]))
            && Gives(c', Recorded(UNLESS), Begin(c', [], map[]), Final([Obj(7)], map[2 := Obj(7)]))
            && !Same(Compile(UNLESS), c', Recorded(UNLESS))
  {
    hide Compile, Recorded, PassFrom, AllEnd, Clean, Begin, Gives, Eval, WellFormed;
    UnlessMeans();
    UnlessWell(false);
    UnlessPass();
    var c, depth := Compile(UNLESS), Recorded(UNLESS);
    var f, g := Final([NilV], map[]), Final([Obj(7)], map[2 := Obj(7)]);
    MergedGives(depth);
    GivesOnce(MERGED, depth, Begin(MERGED, [], map[]), f, g);
    assert Gives(c, depth, Begin(c, [], map[]), f) by {
      SameSelf(c, depth);
      RewrittenMeaning(UNLESS, c, map[], NilV, map[]);
    }
  }

  // ----- a retry that does not end -----

  /** while true && true; end */
  const ENDLESS: Node := While(And(TrueLit, TrueLit), Absent, false, true)

  function EndlessList(): Code {
    [I(Jump(0)), I(PutNil), L(4), I(Pop), I(Jump(0)), L(1), L(0), I(Jump(5)), L(5), I(Jump(1)), L(3), I(PutNil), L(2),
     I(Leave)]
  }

  lemma EndlessIs()
    ensures Compile(ENDLESS) == EndlessList()
  {
    hide Lower, LowerCond, Labels, CondLabels;
    WhileShape(ENDLESS, false, NoLoop, 0);
    LeafShape(Absent, true, InLoop(1, 2), 5);
    PairShape(ENDLESS.cond, 1, 3, InLoop(1, 2), 5);
    LiteralShape(TrueLit, 5, 3, InLoop(1, 2), 6);
    LiteralShape(TrueLit, 1, 3, InLoop(1, 2), 6);
  }

  lemma EndlessPlaces()
    ensures var c := EndlessList(); Dest(c, 0) == 7 && Dest(c, 5) == 9 && Dest(c, 1) == 7 && Next(c, 1) == 1
  {
    var c := EndlessList();
    hide Dest;
    Lands(c, 0, 6, 7);
    Lands(c, 5, 8, 9);
    Lands(c, 1, 5, 7);
  }

  lemma EndlessChase()
    ensures var c := EndlessList(); Chase(c, 0, 0, 1) == Some(5) && Chase(c, 0, 0, 3) == Some(5)
  {
    hide Dest, Next;
    EndlessPlaces();
    var c := EndlessList();
    assert LeadsOn(c, 0, 0) == Some(5) && LeadsOn(c, 0, 5) == Some(1) && LeadsOn(c, 0, 1) == Some(5);
  }

  /** The first call of iseq_optimize on this program is retried for ever: its jump is led on to label 5,
      and then to 1 and 5 in turn. */
  lemma EndlessRetry()
    ensures WellFormed(ENDLESS, false) && IsJump(Compile(ENDLESS), 0) && !RetryEnds(Compile(ENDLESS), 0)
    ensures !AllEnd(Compile(ENDLESS), 0)
  {
    hide Compile, Chase, Finite;
    EndlessIs();
    EndlessChase();
    var c := Compile(ENDLESS);
    FiniteExactly(c, 0, 0);
    assert exists a: nat, b: nat :: a < b && Chase(c, 0, 0, a).Some? && Chase(c, 0, 0, a) == Chase(c, 0, 0, b) by {
      assert 1 < 3 && Chase(c, 0, 0, 1) == Chase(c, 0, 0, 3);
    }
  }
}
