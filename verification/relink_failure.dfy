/** A program whose optimised list linking refuses: an else part that is a loop loses the label in front of it,
    the loop's body is then recorded too deep, and a break in its test would have to push. */
module RelinkFailure {
  import opened Nodes
  import opened Options
  import opened Lowering
  import opened Depths
  import opened Machine
  import opened Linking
  import opened Peephole
  import opened PeepholeStep
  import opened OptimizePass
  import opened PassSteps
  import NeatLists
  import OptimizeFailures
  import TidyTrees
  import opened Relinking
  import opened Relinked

  /** y = a ? 1 : while b && (break 5); end */
  const REFUSED: Node := LAsgn(1, If(LVar(0), Lit(1), While(And(LVar(2), Break(Lit(5))), Absent, false, true)))

  // ----- its list -----

  const FRONT: Code := [I(GetLocal(0)), I(BranchUnless(1)), I(Jump(0)), L(0), I(PutObject(Obj(1))), I(Jump(2)), L(1)]

  const ENTRY: Code := [I(Jump(3)), I(PutNil), L(7), I(Pop), I(Jump(3)), L(4)]

  const TEST: Code := [
    I(GetLocal(2)), I(BranchUnless(6)), I(Jump(8)), L(8), L(9), Adj(4, true), I(PutObject(Obj(5))), I(Jump(5)),
    Adj(9, false), I(PutNil), I(BranchUnless(6)), I(Jump(4))
  ]

  const TAIL: Code := [L(6), I(PutNil), L(5)]

  const BACK: Code := [L(2), I(Dup), I(SetLocal(1)), I(Leave)]

  function Looped(): (c: Code)
    ensures |c| == 22
  {
    ENTRY + ([] + ([L(3)] + (TEST + TAIL)))
  }

  /** The test and the then part, the loop, and what follows. */
  function RefusedListed(): (c: Code)
    ensures |c| == 33
  {
    FRONT + Looped() + BACK
  }

  lemma BreakList()
    ensures var b := REFUSED.value.els.cond.b;
            && WellFormed(b, true) && Labels(b) == 1
            && Lower(b, false, InLoop(4, 5), 9)
               == [L(9), Adj(4, true), I(PutObject(Obj(5))), I(Jump(5)), Adj(9, false), I(PutNil)]
  {
    hide Lower, LowerCond, CondLabels;
    var b := REFUSED.value.els.cond.b;
    BreakShape(b, false, InLoop(4, 5), 9);
    LeafShape(Lit(5), false, InLoop(4, 5), 10);
  }

  lemma HalfList()
    ensures var b := REFUSED.value.els.cond.b;
            && CondLabels(b) == 1
            && LowerCond(b, 4, 6, InLoop(4, 5), 9)
               == [L(9), Adj(4, true), I(PutObject(Obj(5))), I(Jump(5)), Adj(9, false), I(PutNil), I(BranchUnless(6)),
                   I(Jump(4))]
  {
    hide Lower, LowerCond, CondLabels, Labels, WellFormed;
    BreakList();
    TestedShape(REFUSED.value.els.cond.b, 4, 6, InLoop(4, 5), 9);
  }

  lemma TestList()
    ensures var c := REFUSED.value.els.cond;
            CondLabels(c) == 2 && LowerCond(c, 4, 6, InLoop(4, 5), 8) == TEST
  {
    hide Lower, LowerCond, CondLabels, Labels, WellFormed;
    var c, ctx := REFUSED.value.els.cond, InLoop(4, 5);
    HalfList();
    PairShape(c, 4, 6, ctx, 8);
    LeafShape(LVar(2), false, ctx, 9);
    TestedShape(LVar(2), 8, 6, ctx, 9);
    TestWell();
    ShortParts(c, true);
  }

  lemma TestWell()
    ensures WellFormed(REFUSED.value.els.cond, true)
  {
    assert WellFormed(REFUSED.value.els.cond.b, true);
  }

  lemma LoopList()
    ensures Lower(REFUSED.value.els, false, NoLoop, 3) == Looped()
  {
    hide Lower, LowerCond, Labels, CondLabels, TEST;
    var w := REFUSED.value.els;
    TestList();
    WhileShape(w, false, NoLoop, 3);
    LeafShape(Absent, true, InLoop(4, 5), 8);
    assert LoopHead(3, true) == ENTRY && LoopTail(3, false) == TAIL;
  }

  lemma RefusedList()
    ensures Compile(REFUSED) == RefusedListed()
  {
    hide Lower, LowerCond, Labels, CondLabels, Looped;
    var n := REFUSED.value;
    LoopList();
    AsgnShape(REFUSED, false, NoLoop, 0);
    IfShape(n, false, NoLoop, 0);
    OptimizeFailures.LeafTest(0, 0, 1, 3);
    LeafShape(Lit(1), false, NoLoop, 3);
    assert Compile(REFUSED)
        == LowerCond(n.cond, 0, 1, NoLoop, 3) + Fork(0, [I(PutObject(Obj(1)))], Looped())
           + [I(Dup), I(SetLocal(1))] + [I(Leave)];
    ForkParts(Looped());
  }

  lemma ForkParts(c: Code)
    ensures [I(GetLocal(0)), I(BranchUnless(1)), I(Jump(0))] + Fork(0, [I(PutObject(Obj(1)))], c)
            + [I(Dup), I(SetLocal(1))] + [I(Leave)]
            == FRONT + c + BACK
  {
  }

  lemma RefusedWell()
    ensures WellFormed(REFUSED, false)
  {
    TestWell();
    assert WellFormed(REFUSED.value.els, false);
    assert WellFormed(REFUSED.value, false);
  }

  lemma RefusedTidy()
    ensures WellFormed(REFUSED, false) && TidyTrees.Tidy(REFUSED)
  {
    hide WellFormed;
    RefusedWell();
    var w := REFUSED.value.els;
    assert TidyTrees.TidyTest(w.cond.b);
    assert TidyTrees.TidyTest(w.cond);
    assert TidyTrees.Tidy(w);
    assert TidyTrees.Tidy(REFUSED.value);
  }

  // ----- the lists on the way -----

  /** The branch led on to the loop's next label. */
  function Forwarded(): (c: Code)
    ensures |c| == 33
  {
    RefusedListed()[1 := I(BranchUnless(3))]
  }

  /** Without the jump over label 0. */
  function Dropped(): (c: Code)
    ensures |c| == 32
  {
    Remove(Forwarded(), 2)
  }

  /** Without the jump in front of the loop's body. */
  function Entered(): (c: Code)
    ensures |c| == 31
  {
    Remove(Dropped(), 10)
  }

  /** Without the jump to the second half of the test. */
  function Tested(): (c: Code)
    ensures |c| == 30
  {
    Remove(Entered(), 14)
  }

  /** With the test's last branch inverted. */
  function Leftover(): (c: Code)
    ensures |c| == 29
  {
    Remove(Tested()[21 := I(BranchIf(4))], 22)
  }

  lemma FrontElems()
    ensures var c := RefusedListed();
            && c[0] == I(GetLocal(0)) && c[1] == I(BranchUnless(1)) && c[2] == I(Jump(0)) && c[3] == L(0)
            && c[4] == I(PutObject(Obj(1))) && c[5] == I(Jump(2)) && c[6] == L(1)
  {
    hide Looped, BACK;
  }

  lemma EntryElems()
    ensures var c := RefusedListed();
            && c[7] == I(Jump(3)) && c[8] == I(PutNil) && c[9] == L(7) && c[10] == I(Pop) && c[11] == I(Jump(3))
            && c[12] == L(4) && c[13] == L(3)
  {
    var c := Looped();
    hide TEST, TAIL;
    forall i | 0 <= i < 6 ensures c[i] == ENTRY[i] {
    }
    assert c[6] == L(3);
    hide Looped;
    forall i | 0 <= i < 22 ensures RefusedListed()[7 + i] == c[i] {
    }
  }

  lemma TestElems()
    ensures var c := RefusedListed();
            && c[14] == I(GetLocal(2)) && c[15] == I(BranchUnless(6)) && c[16] == I(Jump(8)) && c[17] == L(8)
            && c[18] == L(9) && c[19] == Adj(4, true) && c[20] == I(PutObject(Obj(5))) && c[21] == I(Jump(5))
            && c[22] == Adj(9, false) && c[23] == I(PutNil) && c[24] == I(BranchUnless(6)) && c[25] == I(Jump(4))
  {
    var c := Looped();
    hide TAIL;
    forall i | 0 <= i < 12 ensures c[7 + i] == TEST[i] {
    }
    hide Looped;
    forall i | 0 <= i < 22 ensures RefusedListed()[7 + i] == c[i] {
    }
  }

  lemma BackElems()
    ensures var c := RefusedListed();
            && c[26] == L(6) && c[27] == I(PutNil) && c[28] == L(5) && c[29] == L(2) && c[30] == I(Dup)
            && c[31] == I(SetLocal(1)) && c[32] == I(Leave)
  {
    var c := Looped();
    forall i | 0 <= i < 3 ensures c[19 + i] == TAIL[i] {
    }
    hide Looped;
    forall i | 0 <= i < 22 ensures RefusedListed()[7 + i] == c[i] {
    }
    forall i | 0 <= i < 4 ensures RefusedListed()[29 + i] == BACK[i] {
    }
  }

  /** Where the elements of the later lists come from. */
  lemma Elems()
    ensures var c := RefusedListed();
            && (forall j :: 0 <= j < 33 && j != 1 ==> Forwarded()[j] == c[j])
            && (forall j :: 2 <= j < 32 ==> Dropped()[j] == c[j + 1])
            && (forall j :: 2 <= j < 10 ==> Entered()[j] == c[j + 1])
            && (forall j :: 10 <= j < 31 ==> Entered()[j] == c[j + 2])
            && (forall j :: 0 <= j < 14 ==> Tested()[j] == Entered()[j])
            && (forall j :: 14 <= j < 30 ==> Tested()[j] == c[j + 3])
            && (forall j :: 0 <= j < 21 ==> Leftover()[j] == Tested()[j])
            && (forall j :: 22 <= j < 29 ==> Leftover()[j] == c[j + 4])
    ensures Forwarded()[1] == Dropped()[1] == Entered()[1] == I(BranchUnless(3)) && Dropped()[0] == RefusedListed()[0]
    ensures Entered()[0] == RefusedListed()[0] && Leftover()[21] == I(BranchIf(4))
  {
    hide RefusedListed;
  }

  // ----- where labels lead -----

  lemma ListedDest(l: nat, q: nat, d: nat)
    requires q < d < 33 && RefusedListed()[q] == L(l) && !RefusedListed()[d].L? && forall j :: q < j < d ==>
             RefusedListed()[j].L?
    ensures Dest(RefusedListed(), l) == d
  {
    hide RefusedListed, Dest, Compile, NeatLists.Once;
    RefusedTidy();
    RefusedList();
    TidyTrees.CompileOnce(REFUSED);
    DestAt(RefusedListed(), l, q, d);
  }

  lemma ListedDests()
    ensures var c := RefusedListed();
            && Dest(c, 0) == 4 && Dest(c, 1) == 7 && Dest(c, 2) == 30 && Dest(c, 3) == 14 && Dest(c, 4) == 14
            && Dest(c, 5) == 30 && Dest(c, 6) == 27 && Dest(c, 8) == 19
  {
    hide RefusedListed, Dest;
    FrontElems();
    EntryElems();
    TestElems();
    BackElems();
    ListedDest(0, 3, 4);
    ListedDest(1, 6, 7);
    ListedDest(2, 29, 30);
    ListedDest(3, 13, 14);
    ListedDest(4, 12, 14);
    ListedDest(5, 28, 30);
    ListedDest(6, 26, 27);
    ListedDest(8, 17, 19);
  }

  lemma ForwardedDest(l: nat)
    ensures Dest(Forwarded(), l) == Dest(RefusedListed(), l)
  {
    hide RefusedListed, Dest;
    FrontElems();
    UpdateKeeps(RefusedListed(), 1, I(BranchUnless(3)), 0, l);
  }

  lemma DroppedDest(l: nat)
    requires Dest(RefusedListed(), l) > 2
    ensures Dest(Dropped(), l) == Dest(RefusedListed(), l) - 1
  {
    hide RefusedListed, Forwarded, Dest;
    FrontElems();
    Elems();
    ForwardedDest(l);
    RemoveDest(Forwarded(), 2, l);
  }

  lemma EnteredDest(l: nat)
    requires Dest(RefusedListed(), l) > 11
    ensures Dest(Entered(), l) == Dest(RefusedListed(), l) - 2
  {
    hide RefusedListed, Dropped, Dest;
    EntryElems();
    Elems();
    DroppedDest(l);
    RemoveDest(Dropped(), 10, l);
  }

  lemma TestedDest(l: nat)
    requires 11 < Dest(RefusedListed(), l) && Dest(RefusedListed(), l) != 16
    ensures Dest(Tested(), l) == Dest(RefusedListed(), l) - if Dest(RefusedListed(), l) < 16 then 2 else 3
  {
    hide RefusedListed, Entered, Dest;
    TestElems();
    Elems();
    EnteredDest(l);
    RemoveDest(Entered(), 14, l);
  }

  // ----- the calls -----

  lemma ElseLedOn()
    ensures PassFrom(RefusedListed(), 0) == PassFrom(Forwarded(), 2)
  {
    hide Dest, PassFrom, RefusedListed;
    FrontElems();
    EntryElems();
    ListedDests();
    Over(RefusedListed(), 0, 1);
    OnBranch(RefusedListed(), 1, Forwarded());
  }

  lemma ThenReached()
    ensures PassFrom(Forwarded(), 2) == PassFrom(Dropped(), 2)
  {
    hide RefusedListed, Dest, Next, Prev, PassFrom, Forwarded;
    var c := Forwarded();
    FrontElems();
    Elems();
    ListedDests();
    ForwardedDest(0);
    NextIs(c, 3, 4);
    OnJump(c, 2, Dropped(), Removed);
  }

  lemma RefusedDroppedPlaces()
    ensures var c := Dropped();
            && Next(c, 5) == 6 && Next(c, 7) == 7 && Next(c, 11) == 13 && Prev(c, 4) == Some(3) && Prev(c, 6) == Some(4)
  {
    hide RefusedListed, Next, Dropped;
    var c := Dropped();
    FrontElems();
    EntryElems();
    TestElems();
    Elems();
    NextIs(c, 5, 6);
    NextIs(c, 7, 7);
    NextIs(c, 11, 13);
  }

  lemma JumpsKept()
    ensures PassFrom(Dropped(), 2) == PassFrom(Dropped(), 7)
  {
    hide RefusedListed, Dest, Next, Prev, PassFrom, Dropped;
    var c := Dropped();
    FrontElems();
    EntryElems();
    TestElems();
    BackElems();
    Elems();
    ListedDests();
    DroppedDest(2);
    DroppedDest(3);
    RefusedDroppedPlaces();
    Over(c, 2, 4);
    OnJump(c, 4, c, Kept);
    Over(c, 5, 6);
    OnJump(c, 6, c, Kept);
  }

  lemma BodyReached()
    ensures PassFrom(Dropped(), 7) == PassFrom(Entered(), 10)
  {
    hide RefusedListed, Dest, Next, Prev, PassFrom, Dropped;
    var c := Dropped();
    EntryElems();
    Elems();
    ListedDests();
    DroppedDest(3);
    RefusedDroppedPlaces();
    Over(c, 7, 10);
    OnJump(c, 10, Entered(), Removed);
  }

  lemma HalfReached()
    ensures PassFrom(Entered(), 10) == PassFrom(Tested(), 14)
  {
    hide RefusedListed, Dest, Next, Prev, PassFrom, Entered;
    var c := Entered();
    EntryElems();
    TestElems();
    BackElems();
    Elems();
    ListedDests();
    EnteredDest(6);
    EnteredDest(8);
    Over(c, 10, 13);
    OnBranch(c, 13, c);
    NextIs(c, 15, 17);
    OnJump(c, 14, Tested(), Removed);
  }

  lemma TestedPlaces()
    ensures var c := Tested();
            Next(c, 19) == 19 && Next(c, 23) == 24 && Prev(c, 18) == Some(17) && Prev(c, 22) == Some(21)
  {
    hide RefusedListed, Next, Tested;
    var c := Tested();
    TestElems();
    BackElems();
    Elems();
    NextIs(c, 19, 19);
    NextIs(c, 23, 24);
  }

  lemma BreakKept()
    ensures PassFrom(Tested(), 14) == PassFrom(Tested(), 22)
  {
    hide RefusedListed, Dest, Next, Prev, PassFrom, Tested;
    var c := Tested();
    TestElems();
    BackElems();
    Elems();
    ListedDests();
    TestedDest(5);
    TestedDest(6);
    TestedPlaces();
    Over(c, 14, 18);
    OnJump(c, 18, c, Kept);
    Over(c, 19, 21);
    OnBranch(c, 21, c);
  }

  lemma TestInverted()
    ensures PassFrom(Tested(), 22) == PassFrom(Leftover(), 22)
  {
    hide RefusedListed, Dest, Next, Prev, PassFrom, Tested;
    var c := Tested();
    TestElems();
    Elems();
    ListedDests();
    TestedDest(4);
    TestedDest(6);
    TestedPlaces();
    assert c[12] == I(GetLocal(2));
    OnJump(c, 22, Leftover(), Inverted);
  }

  lemma RestKept()
    ensures PassFrom(Leftover(), 22) == Leftover()
  {
    hide PassFrom, RefusedListed, Leftover;
    BackElems();
    Elems();
    Over(Leftover(), 22, 29);
    AtEnd(Leftover());
  }

  lemma RefusedPass()
    ensures Rewritten(REFUSED) == Leftover()
  {
    hide Compile, PassFrom, RefusedListed, Forwarded, Dropped, Entered, Tested, Leftover;
    RefusedList();
    ElseLedOn();
    ThenReached();
    JumpsKept();
    BodyReached();
    HalfReached();
    BreakKept();
    TestInverted();
    RestKept();
  }

  // ----- the depths -----

  lemma LeftoverElems()
    ensures var c := Leftover();
            && c[0] == I(GetLocal(0)) && c[1] == I(BranchUnless(3)) && c[2] == L(0)
            && c[3] == I(PutObject(Obj(1))) && c[4] == I(Jump(2)) && c[5] == L(1) && c[6] == I(Jump(3))
            && c[7] == I(PutNil) && c[8] == L(7) && c[9] == I(Pop) && c[10] == L(4) && c[11] == L(3)
            && c[12] == I(GetLocal(2)) && c[13] == I(BranchUnless(6)) && c[14] == L(8) && c[15] == L(9)
            && c[16] == Adj(4, true)
  {
    hide RefusedListed, Leftover, Tested, Entered;
    FrontElems();
    EntryElems();
    TestElems();
    Elems();
  }

  /** The front of the list: the then part leaves a value behind the jump to the end. */
  lemma FrontDepths()
    ensures Depth(Leftover(), 5) == Rec(1, map[3 := 0, 0 := 0, 2 := 1])
  {
    hide Depth, Leftover;
    var c := Leftover();
    LeftoverElems();
    ListStart(c);
    OneOn(c, 0, Rec(0, map[]), I(GetLocal(0)), Rec(1, map[]));
    OneOn(c, 1, Rec(1, map[]), I(BranchUnless(3)), Rec(0, map[3 := 0]));
    OneOn(c, 2, Rec(0, map[3 := 0]), L(0), Rec(0, map[3 := 0, 0 := 0]));
    OneOn(c, 3, Rec(0, map[3 := 0, 0 := 0]), I(PutObject(Obj(1))), Rec(1, map[3 := 0, 0 := 0]));
    OneOn(c, 4, Rec(1, map[3 := 0, 0 := 0]), I(Jump(2)), Rec(1, map[3 := 0, 0 := 0, 2 := 1]));
  }

  /** Nothing refers to the else label any more, so its depth is recorded with that value, and so is that of the
      loop's body. */
  lemma EntryDepths(m: map<nat, int>)
    requires Depth(Leftover(), 5) == Rec(1, m) && 3 in m && 1 !in m && 7 !in m && 4 !in m
    ensures Depth(Leftover(), 11) == Rec(1, m[1 := 1][7 := 2][4 := 1])
  {
    hide Depth, Leftover;
    var c, m1 := Leftover(), m[1 := 1];
    LeftoverElems();
    OneOn(c, 5, Rec(1, m), L(1), Rec(1, m1));
    OneOn(c, 6, Rec(1, m1), I(Jump(3)), Rec(1, m1));
    OneOn(c, 7, Rec(1, m1), I(PutNil), Rec(2, m1));
    OneOn(c, 8, Rec(2, m1), L(7), Rec(2, m1[7 := 2]));
    OneOn(c, 9, Rec(2, m1[7 := 2]), I(Pop), Rec(1, m1[7 := 2]));
    OneOn(c, 10, Rec(1, m1[7 := 2]), L(4), Rec(1, m1[7 := 2][4 := 1]));
  }

  /** The test is at the ground again, and the break in it below the loop's body. */
  lemma BreakDepths(m: map<nat, int>)
    requires Depth(Leftover(), 11) == Rec(1, m) && 3 in m && m[3] == 0 && 4 in m && m[4] == 1
    requires 6 !in m && 8 !in m && 9 !in m
    ensures Depth(Leftover(), 16).sp == 0 && Depth(Leftover(), 17).sp == 1
  {
    hide Depth, Leftover;
    var c, m1 := Leftover(), m[6 := 0][8 := 0];
    LeftoverElems();
    OneOn(c, 11, Rec(1, m), L(3), Rec(0, m));
    OneOn(c, 12, Rec(0, m), I(GetLocal(2)), Rec(1, m));
    OneOn(c, 13, Rec(1, m), I(BranchUnless(6)), Rec(0, m[6 := 0]));
    OneOn(c, 14, Rec(0, m[6 := 0]), L(8), Rec(0, m1));
    OneOn(c, 15, Rec(0, m1), L(9), Rec(0, m1[9 := 0]));
    OneOn(c, 16, Rec(0, m1[9 := 0]), Adj(4, true), Rec(1, m1[9 := 0]));
  }

  lemma RefusedDepths()
    ensures Leftover()[16] == Adj(4, true) && Depth(Leftover(), 16).sp == 0 && Depth(Leftover(), 17).sp == 1
  {
    hide Depth, Leftover;
    var m: map<nat, int> := map[3 := 0, 0 := 0, 2 := 1];
    LeftoverElems();
    FrontDepths();
    EntryDepths(m);
    BreakDepths(m[1 := 1][7 := 2][4 := 1]);
  }

  /** The tree is tidy, so the optimiser returns and keeps what the list computes; but linking does not take
      the list: the break in the test would have to push. */
  lemma RefusedRelinking()
    ensures WellFormed(REFUSED, false) && TidyTrees.Tidy(REFUSED) && !Downward(Rewritten(REFUSED))
  {
    hide Depth, Compile, PassFrom, TidyTrees.Tidy, WellFormed, Leftover, Rewritten;
    RefusedTidy();
    RefusedPass();
    RefusedDepths();
  }
}
