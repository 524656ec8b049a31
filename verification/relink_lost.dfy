/** A program whose optimised list links, but whose words lose its value: they come to an adjustment that finds
    nothing on the stack to pop. */
module RelinkLost {
  import opened Nodes
  import opened Options
  import opened Lowering
  import opened Depths
  import opened Machine
  import opened Meaning
  import opened Linking
  import opened Optimized
  import opened Peephole
  import opened PeepholeStep
  import opened OptimizePass
  import opened PassSteps
  import NeatLists
  import OptimizeFailures
  import TidyTrees
  import opened Levels
  import opened Relinking
  import opened Relinked

  /** while (a ? b : if nil then x = 1 else c end || (break d)); end */
  const LOST: Node :=
    While(If(LVar(0), LVar(1), Or(If(NilLit, LAsgn(4, Lit(1)), LVar(2)), Break(LVar(3)))), Absent, false, true)

  /** The variables with which it goes wrong: only d has a value. */
  const ENV: Env := map[3 := Obj(7)]

  // ----- its list -----

  const LOST_ENTRY: Code := [I(Jump(0)), I(PutNil), L(4), I(Pop), I(Jump(0)), L(1)]

  const ASKED: Code := [I(GetLocal(0)), I(BranchUnless(6)), I(Jump(5))]

  const DECIDED: Code := [
    I(Jump(10)), L(9), I(PutObject(Obj(1))), I(Dup), I(SetLocal(4)), I(Jump(11)), L(10), I(GetLocal(2)), L(11)
  ]

  const BROKEN: Code := [L(12), Adj(1, true), I(GetLocal(3)), I(Jump(2)), Adj(12, false), I(PutNil)]

  const LOST_TAIL: Code := [L(3), I(PutNil), L(2)]

  /** The else part. */
  function Either(): (c: Code)
    ensures |c| == 19
  {
    DECIDED + Short(8, I(BranchIf(8)), false, BROKEN)
  }

  /** The conditional whose value is the loop's test. */
  function Asking(): (c: Code)
    ensures |c| == 27
  {
    ASKED + Fork(5, [I(GetLocal(1))], Either())
  }

  function LostListed(): (c: Code)
    ensures |c| == 40
  {
    LOST_ENTRY + ([] + ([L(0)] + (Asking() + [I(BranchUnless(3)), I(Jump(1))] + LOST_TAIL))) + [I(Leave)]
  }

  lemma DecidedLabels()
    ensures var n := LOST.cond.els.a;
            && Labels(n) == 3 && WellFormed(n, true) && Labels(n.body) == 0 && CondLabels(n.cond) == 0
  {
  }

  lemma DecidedList()
    ensures Lower(LOST.cond.els.a, false, InLoop(1, 2), 9) == DECIDED
  {
    hide Lower, LowerCond, Labels, CondLabels;
    DecidedLabels();
    var n, ctx := LOST.cond.els.a, InLoop(1, 2);
    IfShape(n, false, ctx, 9);
    TidyTrees.LiteralShape(NilLit, 9, 10, ctx, 12);
    AsgnShape(n.body, false, ctx, 12);
    LeafShape(Lit(1), false, ctx, 12);
    LeafShape(LVar(2), false, ctx, 12);
  }

  lemma LostBreakList()
    ensures var n := LOST.cond.els.b;
            Labels(n) == 1 && WellFormed(n, true) && Lower(n, false, InLoop(1, 2), 12) == BROKEN
  {
    hide Lower, LowerCond, CondLabels;
    BreakShape(LOST.cond.els.b, false, InLoop(1, 2), 12);
    LeafShape(LVar(3), false, InLoop(1, 2), 13);
  }

  lemma EitherList()
    ensures Lower(LOST.cond.els, false, InLoop(1, 2), 8) == Either()
  {
    hide Lower, LowerCond, Labels, CondLabels, WellFormed, DECIDED, BROKEN;
    DecidedLabels();
    DecidedList();
    LostBreakList();
    ShortShape(LOST.cond.els, false, InLoop(1, 2), 8);
  }

  lemma AskingList()
    ensures Lower(LOST.cond, false, InLoop(1, 2), 5) == Asking()
  {
    hide Lower, LowerCond, Labels, CondLabels, Either;
    var n, ctx := LOST.cond, InLoop(1, 2);
    EitherList();
    IfShape(n, false, ctx, 5);
    LeafShape(LVar(0), false, ctx, 8);
    TestedShape(LVar(0), 5, 6, ctx, 8);
    LeafShape(LVar(1), false, ctx, 8);
    assert LowerCond(n.cond, 5, 6, ctx, 8) == ASKED;
  }

  lemma LostWell()
    ensures WellFormed(LOST, false)
  {
    hide Lower, LowerCond, Labels, CondLabels;
    DecidedLabels();
    LostBreakList();
    assert WellFormed(LOST.cond.els, true);
    assert WellFormed(LOST.cond, true);
  }

  lemma LoopParts()
    ensures LoopHead(0, true) == LOST_ENTRY && LoopTail(0, false) == LOST_TAIL
  {
  }

  lemma LostList()
    ensures Compile(LOST) == LostListed()
  {
    hide Lower, LowerCond, Labels, CondLabels, Asking, LoopHead, LoopTail, LOST_ENTRY, LOST_TAIL;
    AskingList();
    LoopParts();
    WhileShape(LOST, false, NoLoop, 0);
    LeafShape(Absent, true, InLoop(1, 2), 5);
    TestedShape(LOST.cond, 1, 3, InLoop(1, 2), 5);
  }

  lemma LostTidy()
    ensures TidyTrees.Tidy(LOST)
  {
    var n := LOST.cond.els;
    assert TidyTrees.Tidy(n.a) && TidyTrees.Tidy(n.b);
    assert TidyTrees.Tidy(n);
    assert TidyTrees.TidyTest(LOST.cond);
  }

  // ----- the lists on the way -----

  /** Without the jump to the test. */
  function LostEntered(): (c: Code)
    ensures |c| == 39
  {
    Remove(LostListed(), 4)
  }

  /** The branch led on to the else part of the decided conditional. */
  function LostForwarded(): (c: Code)
    ensures |c| == 39
  {
    LostEntered()[7 := I(BranchUnless(10))]
  }

  /** Without the jump over label 5. */
  function LostDropped(): (c: Code)
    ensures |c| == 38
  {
    Remove(LostForwarded(), 8)
  }

  /** With leave in place of the jump out of the loop. */
  function Left(): (c: Code)
    ensures |c| == 39
  {
    Leaving(LostDropped(), 27)
  }

  /** With the test's last branch inverted. */
  function LostLeftover(): (c: Code)
    ensures |c| == 38
  {
    Remove(Left()[33 := I(BranchIf(1))], 34)
  }

  /** The parts of the list side by side. */
  lemma ListedParts()
    ensures |Asking()| == 27
    ensures forall i :: 0 <= i < 6 ==> LostListed()[i] == LOST_ENTRY[i]
    ensures LostListed()[6] == L(0)
    ensures forall i :: 0 <= i < 27 ==> LostListed()[7 + i] == Asking()[i]
    ensures LostListed()[34] == I(BranchUnless(3)) && LostListed()[35] == I(Jump(1)) && LostListed()[39] == I(Leave)
    ensures forall i :: 0 <= i < 3 ==> LostListed()[36 + i] == LOST_TAIL[i]
  {
    hide Asking;
  }

  lemma AskingParts()
    ensures forall i :: 0 <= i < 3 ==> Asking()[i] == ASKED[i]
    ensures Asking()[3] == L(5) && Asking()[4] == I(GetLocal(1)) && Asking()[5] == I(Jump(7)) && Asking()[6] == L(6)
    ensures forall i :: 0 <= i < 19 ==> Asking()[7 + i] == Either()[i]
    ensures Asking()[26] == L(7)
  {
    hide Either;
  }

  lemma EitherParts()
    ensures forall i :: 0 <= i < 9 ==> Either()[i] == DECIDED[i]
    ensures Either()[9] == I(Dup) && Either()[10] == I(BranchIf(8)) && Either()[11] == I(Pop)
    ensures Either()[12] == L(12) && Either()[13] == Adj(1, true) && Either()[14] == I(GetLocal(3))
    ensures Either()[15] == I(Jump(2)) && Either()[16] == Adj(12, false) && Either()[17] == I(PutNil)
    ensures Either()[18] == L(8)
  {
  }

  lemma LostEntryElems()
    ensures var c := LostListed();
            && c[0] == I(Jump(0)) && c[1] == I(PutNil) && c[2] == L(4) && c[3] == I(Pop) && c[4] == I(Jump(0))
            && c[5] == L(1) && c[6] == L(0)
  {
    hide LostListed, Asking;
    ListedParts();
  }

  lemma AskedElems()
    ensures var c := LostListed();
            && c[7] == I(GetLocal(0)) && c[8] == I(BranchUnless(6)) && c[9] == I(Jump(5)) && c[10] == L(5)
            && c[11] == I(GetLocal(1)) && c[12] == I(Jump(7)) && c[13] == L(6) && c[33] == L(7)
  {
    hide LostListed, Asking, Either;
    ListedParts();
    AskingParts();
    var a := Asking();
    assert LostListed()[7 + 0] == a[0] && LostListed()[7 + 1] == a[1] && LostListed()[7 + 2] == a[2]
        && LostListed()[7 + 3] == a[3];
    assert LostListed()[7 + 4] == a[4] && LostListed()[7 + 5] == a[5] && LostListed()[7 + 6] == a[6]
        && LostListed()[7 + 26] == a[26];
  }

  lemma EitherThere()
    ensures forall i :: 0 <= i < 19 ==> LostListed()[14 + i] == Either()[i]
  {
    hide LostListed, Asking, Either;
    ListedParts();
    AskingParts();
    forall i | 0 <= i < 19 ensures LostListed()[14 + i] == Either()[i] {
      assert LostListed()[7 + (7 + i)] == Asking()[7 + i];
    }
  }

  lemma DecidedElems()
    ensures var c := LostListed();
            && c[14] == I(Jump(10)) && c[15] == L(9) && c[16] == I(PutObject(Obj(1))) && c[17] == I(Dup)
            && c[18] == I(SetLocal(4)) && c[19] == I(Jump(11)) && c[20] == L(10) && c[21] == I(GetLocal(2))
            && c[22] == L(11)
  {
    hide LostListed, Asking, Either;
    EitherThere();
    EitherParts();
    var c, e := LostListed(), Either();
    assert c[14 + 0] == e[0] && c[14 + 1] == e[1] && c[14 + 2] == e[2] && c[14 + 3] == e[3] && c[14 + 4] == e[4];
    assert c[14 + 5] == e[5] && c[14 + 6] == e[6] && c[14 + 7] == e[7] && c[14 + 8] == e[8];
  }

  lemma BreakElems()
    ensures var c := LostListed();
            && c[23] == I(Dup) && c[24] == I(BranchIf(8)) && c[25] == I(Pop) && c[26] == L(12) && c[27] == Adj(1, true)
            && c[28] == I(GetLocal(3)) && c[29] == I(Jump(2)) && c[30] == Adj(12, false) && c[31] == I(PutNil)
            && c[32] == L(8)
  {
    hide LostListed, Asking, Either;
    EitherThere();
    EitherParts();
    var e := Either();
    var c := LostListed();
    assert c[14 + 9] == e[9] && c[14 + 10] == e[10] && c[14 + 11] == e[11] && c[14 + 12] == e[12];
    assert c[14 + 13] == e[13] && c[14 + 14] == e[14] && c[14 + 15] == e[15] && c[14 + 16] == e[16];
    assert c[14 + 17] == e[17] && c[14 + 18] == e[18];
  }

  lemma TailElems()
    ensures var c := LostListed();
            && c[34] == I(BranchUnless(3)) && c[35] == I(Jump(1)) && c[36] == L(3) && c[37] == I(PutNil)
                && c[38] == L(2)
            && c[39] == I(Leave)
  {
    hide LostListed, Asking;
    ListedParts();
    assert LostListed()[36 + 0] == LOST_TAIL[0] && LostListed()[36 + 1] == LOST_TAIL[1]
        && LostListed()[36 + 2] == LOST_TAIL[2];
  }

  /** Where the elements of the later lists come from. */
  lemma LostElems()
    ensures var c := LostListed();
            && (forall j :: 0 <= j < 4 ==> LostEntered()[j] == c[j])
            && (forall j :: 4 <= j < 39 ==> LostEntered()[j] == c[j + 1])
            && (forall j :: 0 <= j < 39 && j != 7 ==> LostForwarded()[j] == LostEntered()[j])
            && (forall j :: 0 <= j < 8 ==> LostDropped()[j] == LostForwarded()[j])
            && (forall j :: 8 <= j < 38 ==> LostDropped()[j] == c[j + 2])
            && (forall j :: 0 <= j < 27 ==> Left()[j] == LostDropped()[j])
            && (forall j :: 29 <= j < 39 ==> Left()[j] == c[j + 1])
            && (forall j :: 0 <= j < 33 ==> LostLeftover()[j] == Left()[j])
            && (forall j :: 34 <= j < 38 ==> LostLeftover()[j] == c[j + 2])
    ensures LostForwarded()[7] == I(BranchUnless(10)) && LostLeftover()[33] == I(BranchIf(1))
    ensures Left()[27] == I(Leave) && Left()[28] == I(Pop)
  {
    hide LostListed;
  }

  lemma EnteredElems()
    ensures var c := LostEntered();
            && c[4] == L(1) && c[5] == L(0) && c[6] == I(GetLocal(0)) && c[7] == I(BranchUnless(6)) && c[12] == L(6)
            && c[13] == I(Jump(10))
  {
    hide LostListed, LostEntered, LostForwarded, LostDropped, Left, LostLeftover;
    LostEntryElems();
    AskedElems();
    DecidedElems();
    LostElems();
  }

  lemma DroppedElems()
    ensures var c := LostDropped();
            && c[8] == L(5) && c[9] == I(GetLocal(1)) && c[10] == I(Jump(7)) && c[11] == L(6) && c[12] == I(Jump(10))
            && c[13] == L(9) && c[14] == I(PutObject(Obj(1))) && c[15] == I(Dup) && c[16] == I(SetLocal(4))
            && c[17] == I(Jump(11)) && c[18] == L(10) && c[19] == I(GetLocal(2)) && c[20] == L(11) && c[21] == I(Dup)
  {
    hide LostListed, LostEntered, LostForwarded, LostDropped, Left, LostLeftover;
    AskedElems();
    DecidedElems();
    BreakElems();
    LostElems();
  }

  lemma DroppedRest()
    ensures var c := LostDropped();
            && c[22] == I(BranchIf(8)) && c[23] == I(Pop) && c[24] == L(12) && c[25] == Adj(1, true)
            && c[26] == I(GetLocal(3)) && c[27] == I(Jump(2)) && c[28] == Adj(12, false) && c[29] == I(PutNil)
            && c[30] == L(8) && c[31] == L(7) && c[32] == I(BranchUnless(3)) && c[33] == I(Jump(1)) && c[34] == L(3)
            && c[35] == I(PutNil) && c[36] == L(2) && c[37] == I(Leave)
  {
    hide LostListed, LostEntered, LostForwarded, LostDropped, Left, LostLeftover;
    AskedElems();
    BreakElems();
    TailElems();
    LostElems();
  }

  lemma LeftElems()
    ensures var c := Left();
            && c[0] == I(Jump(0)) && c[1] == I(PutNil) && c[2] == L(4) && c[3] == I(Pop) && c[4] == L(1) && c[5] == L(0)
            && c[6] == I(GetLocal(0)) && c[7] == I(BranchUnless(10)) && c[27] == I(Leave) && c[28] == I(Pop)
            && c[29] == Adj(12, false) && c[30] == I(PutNil) && c[31] == L(8) && c[32] == L(7)
            && c[33] == I(BranchUnless(3)) && c[34] == I(Jump(1)) && c[35] == L(3) && c[36] == I(PutNil)
  {
    hide LostListed, LostEntered, LostForwarded, LostDropped, Left, LostLeftover;
    LostEntryElems();
    AskedElems();
    BreakElems();
    TailElems();
    LostElems();
  }

  lemma StagesOnce()
    ensures NeatLists.Once(LostListed()) && NeatLists.Once(LostEntered()) && NeatLists.Once(LostForwarded())
    ensures NeatLists.Once(LostDropped()) && NeatLists.Once(Left()) && NeatLists.Once(LostLeftover())
  {
    hide LostListed, Compile, NeatLists.Once;
    LostEntryElems();
    AskedElems();
    DecidedElems();
    BreakElems();
    TailElems();
    LostElems();
    LostWell();
    LostList();
    TidyTrees.CompileOnce(LOST);
    NeatLists.OnceRemove(LostListed(), 4);
    NeatLists.OnceUpdate(LostEntered(), 7, I(BranchUnless(10)));
    NeatLists.OnceRemove(LostForwarded(), 8);
    NeatLists.OnceLeaving(LostDropped(), 27);
    NeatLists.OnceUpdate(Left(), 33, I(BranchIf(1)));
    NeatLists.OnceRemove(Left()[33 := I(BranchIf(1))], 34);
  }

  // ----- the calls -----

  lemma EntryKept()
    ensures PassFrom(LostListed(), 0) == PassFrom(LostEntered(), 4)
  {
    hide LostListed, Dest, Next, Prev, PassFrom, NeatLists.Once;
    var c := LostListed();
    LostEntryElems();
    AskedElems();
    StagesOnce();
    DestAt(c, 0, 6, 7);
    NextIs(c, 1, 1);
    NextIs(c, 5, 7);
    OnJump(c, 0, c, Kept);
    Over(c, 1, 4);
    OnJump(c, 4, LostEntered(), Removed);
  }

  lemma LostElseLedOn()
    ensures PassFrom(LostEntered(), 4) == PassFrom(LostForwarded(), 8)
  {
    hide LostListed, Dest, PassFrom, LostEntered, NeatLists.Once;
    hide LostForwarded;
    var c := LostEntered();
    EnteredElems();
    StagesOnce();
    assert LostForwarded() == c[7 := I(BranchUnless(10))] by { ForwardedIs(); }
    DestAt(c, 6, 12, 13);
    Over(c, 4, 7);
    OnBranch(c, 7, LostForwarded());
  }

  lemma ForwardedIs()
    ensures LostForwarded() == LostEntered()[7 := I(BranchUnless(10))]
  {
    hide LostEntered;
  }

  lemma LostThenReached()
    ensures PassFrom(LostForwarded(), 8) == PassFrom(LostDropped(), 8)
  {
    hide LostListed, Dest, Next, Prev, PassFrom, LostForwarded, LostEntered, NeatLists.Once;
    var c := LostForwarded();
    AskedElems();
    LostElems();
    StagesOnce();
    DestAt(c, 5, 9, 10);
    NextIs(c, 9, 10);
    OnJump(c, 8, LostDropped(), Removed);
  }

  lemma DroppedDests()
    ensures var c := LostDropped();
            && Dest(c, 7) == 32 && Dest(c, 8) == 32 && Dest(c, 10) == 19 && Dest(c, 11) == 21 && Dest(c, 2) == 37
  {
    hide LostListed, Dest, LostDropped, NeatLists.Once;
    var c := LostDropped();
    DroppedElems();
    DroppedRest();
    StagesOnce();
    DestAt(c, 7, 31, 32);
    DestAt(c, 8, 30, 32);
    DestAt(c, 10, 18, 19);
    DestAt(c, 11, 20, 21);
    DestAt(c, 2, 36, 37);
  }

  lemma LostDroppedPlaces()
    ensures var c := LostDropped();
            && Next(c, 11) == 12 && Next(c, 13) == 14 && Next(c, 18) == 19 && Next(c, 28) == 28
            && Prev(c, 10) == Some(9) && Prev(c, 12) == Some(10) && Prev(c, 17) == Some(16) && Prev(c, 27) == Some(26)
  {
    hide LostListed, Next, LostDropped;
    var c := LostDropped();
    DroppedElems();
    DroppedRest();
    NextIs(c, 11, 12);
    NextIs(c, 13, 14);
    NextIs(c, 18, 19);
    NextIs(c, 28, 28);
  }

  lemma LostJumpsKept()
    ensures PassFrom(LostDropped(), 8) == PassFrom(LostDropped(), 13)
  {
    hide LostListed, Dest, Next, Prev, PassFrom, LostDropped;
    var c := LostDropped();
    DroppedElems();
    DroppedRest();
    DroppedDests();
    LostDroppedPlaces();
    Over(c, 8, 10);
    OnJump(c, 10, c, Kept);
    Over(c, 11, 12);
    OnJump(c, 12, c, Kept);
  }

  lemma BranchKept()
    ensures PassFrom(LostDropped(), 13) == PassFrom(LostDropped(), 23)
  {
    hide LostListed, Dest, Next, Prev, PassFrom, LostDropped;
    var c := LostDropped();
    DroppedElems();
    DroppedRest();
    DroppedDests();
    LostDroppedPlaces();
    Over(c, 13, 17);
    OnJump(c, 17, c, Kept);
    Over(c, 18, 22);
    OnBranch(c, 22, c);
  }

  lemma BreakLeft()
    ensures PassFrom(LostDropped(), 23) == PassFrom(Left(), 29)
  {
    hide LostListed, Dest, Next, Prev, PassFrom, LostDropped;
    var c := LostDropped();
    DroppedRest();
    DroppedDests();
    LostDroppedPlaces();
    Over(c, 23, 27);
    OnJump(c, 27, Left(), Rewrite.Left);
  }

  lemma LostTestInverted()
    ensures PassFrom(Left(), 29) == PassFrom(LostLeftover(), 34)
  {
    hide LostListed, Dest, Next, Prev, PassFrom, Left, LostDropped, LostForwarded, LostEntered, NeatLists.Once;
    var c := Left();
    LeftElems();
    StagesOnce();
    DestAt(c, 3, 35, 36);
    DestAt(c, 1, 4, 6);
    NextIs(c, 35, 36);
    PrevHere(c, 34);
    Over(c, 29, 33);
    OnBranch(c, 33, c);
    OnJump(c, 34, LostLeftover(), Inverted);
  }

  lemma PrevHere(c: Code, q: nat)
    requires 0 < q <= |c| && !c[q - 1].L?
    ensures Prev(c, q) == Some(q - 1)
  {
  }

  lemma LostRestKept()
    ensures PassFrom(LostLeftover(), 34) == LostLeftover()
  {
    hide PassFrom, LostListed, LostLeftover;
    TailElems();
    LostElems();
    Over(LostLeftover(), 34, 38);
    AtEnd(LostLeftover());
  }

  lemma LostPass()
    ensures Rewritten(LOST) == LostLeftover()
  {
    hide Compile, PassFrom, LostListed, LostEntered, LostForwarded, LostDropped, Left, LostLeftover;
    LostList();
    EntryKept();
    LostElseLedOn();
    LostThenReached();
    LostJumpsKept();
    BranchKept();
    BreakLeft();
    LostTestInverted();
    LostRestKept();
  }

  // ----- the depths -----

  lemma LostLeftoverElems()
    ensures var c := LostLeftover();
            && c[0] == I(Jump(0)) && c[1] == I(PutNil) && c[2] == L(4) && c[3] == I(Pop) && c[4] == L(1) && c[5] == L(0)
            && c[6] == I(GetLocal(0)) && c[7] == I(BranchUnless(10)) && c[8] == L(5) && c[9] == I(GetLocal(1))
            && c[10] == I(Jump(7)) && c[11] == L(6) && c[12] == I(Jump(10))
  {
    hide LostListed, LostEntered, LostForwarded, LostDropped, Left, LostLeftover;
    LeftElems();
    DroppedElems();
    LostElems();
  }

  lemma LeftoverRest()
    ensures var c := LostLeftover();
            && c[13] == L(9) && c[14] == I(PutObject(Obj(1))) && c[15] == I(Dup) && c[16] == I(SetLocal(4))
            && c[17] == I(Jump(11)) && c[18] == L(10) && c[19] == I(GetLocal(2)) && c[20] == L(11) && c[21] == I(Dup)
            && c[22] == I(BranchIf(8)) && c[23] == I(Pop) && c[24] == L(12) && c[25] == Adj(1, true)
  {
    hide LostListed, LostEntered, LostForwarded, LostDropped, Left, LostLeftover;
    DroppedElems();
    DroppedRest();
    LostElems();
  }

  lemma LostEntryDepths()
    ensures Depth(LostLeftover(), 6) == Rec(0, map[0 := 0, 4 := 1, 1 := 0])
  {
    hide Depth, LostLeftover;
    var c := LostLeftover();
    LostLeftoverElems();
    ListStart(c);
    OneOn(c, 0, Rec(0, map[]), I(Jump(0)), Rec(0, map[0 := 0]));
    OneOn(c, 1, Rec(0, map[0 := 0]), I(PutNil), Rec(1, map[0 := 0]));
    OneOn(c, 2, Rec(1, map[0 := 0]), L(4), Rec(1, map[0 := 0, 4 := 1]));
    OneOn(c, 3, Rec(1, map[0 := 0, 4 := 1]), I(Pop), Rec(0, map[0 := 0, 4 := 1]));
    OneOn(c, 4, Rec(0, map[0 := 0, 4 := 1]), L(1), Rec(0, map[0 := 0, 4 := 1, 1 := 0]));
    OneOn(c, 5, Rec(0, map[0 := 0, 4 := 1, 1 := 0]), L(0), Rec(0, map[0 := 0, 4 := 1, 1 := 0]));
  }

  lemma AskedDepths(m: map<nat, int>)
    requires Depth(LostLeftover(), 6) == Rec(0, m) && 10 !in m && 5 !in m && 7 !in m && 6 !in m
    ensures Depth(LostLeftover(), 13) == Rec(1, m[10 := 0][5 := 0][7 := 1][6 := 1])
  {
    hide Depth, LostLeftover;
    var c, m1 := LostLeftover(), m[10 := 0][5 := 0];
    LostLeftoverElems();
    OneOn(c, 6, Rec(0, m), I(GetLocal(0)), Rec(1, m));
    OneOn(c, 7, Rec(1, m), I(BranchUnless(10)), Rec(0, m[10 := 0]));
    OneOn(c, 8, Rec(0, m[10 := 0]), L(5), Rec(0, m1));
    OneOn(c, 9, Rec(0, m1), I(GetLocal(1)), Rec(1, m1));
    OneOn(c, 10, Rec(1, m1), I(Jump(7)), Rec(1, m1[7 := 1]));
    OneOn(c, 11, Rec(1, m1[7 := 1]), L(6), Rec(1, m1[7 := 1][6 := 1]));
    OneOn(c, 12, Rec(1, m1[7 := 1][6 := 1]), I(Jump(10)), Rec(1, m1[7 := 1][6 := 1]));
  }

  /** The assignment that is never made is recorded one too deep, and with it the end of its conditional. */
  lemma DecidedDepths(m: map<nat, int>)
    requires Depth(LostLeftover(), 13) == Rec(1, m) && 10 in m && m[10] == 0 && 9 !in m && 11 !in m
    ensures Depth(LostLeftover(), 20) == Rec(1, m[9 := 1][11 := 2])
  {
    hide Depth, LostLeftover;
    var c, m1 := LostLeftover(), m[9 := 1];
    LeftoverRest();
    OneOn(c, 13, Rec(1, m), L(9), Rec(1, m1));
    OneOn(c, 14, Rec(1, m1), I(PutObject(Obj(1))), Rec(2, m1));
    OneOn(c, 15, Rec(2, m1), I(Dup), Rec(3, m1));
    OneOn(c, 16, Rec(3, m1), I(SetLocal(4)), Rec(2, m1));
    OneOn(c, 17, Rec(2, m1), I(Jump(11)), Rec(2, m1[11 := 2]));
    OneOn(c, 18, Rec(2, m1[11 := 2]), L(10), Rec(0, m1[11 := 2]));
    OneOn(c, 19, Rec(0, m1[11 := 2]), I(GetLocal(2)), Rec(1, m1[11 := 2]));
  }

  /** So the break is recorded one too deep. */
  lemma LostBreakDepths(m: map<nat, int>)
    requires Depth(LostLeftover(), 20) == Rec(1, m) && 11 in m && m[11] == 2 && 1 in m && m[1] == 0 && 8 !in m
    requires 12 !in m
    ensures Depth(LostLeftover(), 25).sp == 1 && Depth(LostLeftover(), 26).sp == 0
  {
    hide Depth, LostLeftover;
    var c, m1 := LostLeftover(), m[8 := 2];
    LeftoverRest();
    OneOn(c, 20, Rec(1, m), L(11), Rec(2, m));
    OneOn(c, 21, Rec(2, m), I(Dup), Rec(3, m));
    OneOn(c, 22, Rec(3, m), I(BranchIf(8)), Rec(2, m1));
    OneOn(c, 23, Rec(2, m1), I(Pop), Rec(1, m1));
    OneOn(c, 24, Rec(1, m1), L(12), Rec(1, m1[12 := 1]));
    OneOn(c, 25, Rec(1, m1[12 := 1]), Adj(1, true), Rec(0, m1[12 := 1]));
  }

  lemma LostDepths()
    ensures Depth(LostLeftover(), 25).sp == 1 && Depth(LostLeftover(), 26).sp == 0
  {
    hide Depth, LostLeftover;
    var m: map<nat, int> := map[0 := 0, 4 := 1, 1 := 0];
    var m1 := m[10 := 0][5 := 0][7 := 1][6 := 1];
    LostEntryDepths();
    AskedDepths(m);
    DecidedDepths(m1);
    LostBreakDepths(m1[9 := 1][11 := 2]);
  }

  /** Only the one break of the program adjusts. */
  lemma OneAdjustment()
    ensures forall q :: 0 <= q < 38 && LostLeftover()[q].Adj? && LostLeftover()[q].emits ==> q == 25
  {
    hide LostListed, LostEntered, LostForwarded, LostDropped, Left, LostLeftover;
    LostLeftoverElems();
    LeftoverRest();
    LeftElems();
    DroppedRest();
    LostElems();
    TailElems();
    DroppedElems();
  }

  lemma LostAccepted()
    ensures Accepted(LOST)
  {
    hide Depth, Compile, PassFrom, TidyTrees.Tidy, WellFormed, LostLeftover, Rewritten, Clean, Leveled, Sealed;
    hide NeatLists.Once, HeightsOf, AllEnd;
    LostWell();
    LostTidy();
    TidyTrees.TidyPass(LOST);
    RewrittenShape(LOST);
    LostPass();
    LostDepths();
    OneAdjustment();
  }

  // ----- the run -----

  lemma LeftoverLands()
    ensures Land(LostLeftover(), 0) == 6 && Land(LostLeftover(), 10) == 19
  {
    hide LostLeftover, Find, NeatLists.Once;
    LostLeftoverElems();
    LeftoverRest();
    StagesOnce();
    NeatLists.FindOnly(LostLeftover(), 0, 5);
    NeatLists.FindOnly(LostLeftover(), 10, 18);
  }

  /** One step more. */
  lemma StepOn(c: Code, s0: State, m: nat, s: State, s1: State)
    requires Steps(c, s0, m) == Some(s) && Step(c, s) == Some(s1)
    ensures Steps(c, s0, m + 1) == Some(s1)
  {
    hide Steps, Step;
    NextState(c, s0, m, s);
  }

  /** With a nil the run goes by the else part. */
  lemma RunToElse()
    ensures Steps(LostLeftover(), Start(ENV), 4) == Some(State(20, [NilV], ENV))
  {
    hide Steps, Depth, LostLeftover, Land;
    var c, s0 := LostLeftover(), Start(ENV);
    var none: seq<Value> := [];
    LostLeftoverElems();
    LeftoverRest();
    LeftoverLands();
    assert none + [NilV] == [NilV];
    assert Steps(c, s0, 0) == Some(s0) by { NoSteps(c, s0); }
    StepOn(c, s0, 0, s0, State(6, [], ENV));
    StepOn(c, s0, 1, State(6, [], ENV), State(7, [NilV], ENV));
    StepOn(c, s0, 2, State(7, [NilV], ENV), State(19, [], ENV));
    StepOn(c, s0, 3, State(19, [], ENV), State(20, [NilV], ENV));
  }

  /** And with c nil to the break. */
  lemma LostRun()
    ensures Steps(LostLeftover(), Start(ENV), 9) == Some(State(25, [], ENV))
  {
    hide Steps, Depth, LostLeftover, Land;
    var c, s0 := LostLeftover(), Start(ENV);
    RunToElse();
    LeftoverRest();
    assert [NilV] + [NilV] == [NilV, NilV];
    StepOn(c, s0, 4, State(20, [NilV], ENV), State(21, [NilV], ENV));
    StepOn(c, s0, 5, State(21, [NilV], ENV), State(22, [NilV, NilV], ENV));
    StepOn(c, s0, 6, State(22, [NilV, NilV], ENV), State(23, [NilV], ENV));
    StepOn(c, s0, 7, State(23, [NilV], ENV), State(24, [], ENV));
    StepOn(c, s0, 8, State(24, [], ENV), State(25, [], ENV));
  }

  lemma LostLoud()
    ensures !QuietRun(Rewritten(LOST), Start(ENV))
  {
    hide Steps, Depth, LostLeftover, Rewritten, QuietRun;
    LostPass();
    LostRun();
    LostDepths();
    LeftoverRest();
    var s := State(25, [], ENV);
    if QuietRun(LostLeftover(), Start(ENV)) { QuietAt(LostLeftover(), Start(ENV), 9, s); }
  }

  // ----- the meaning -----

  lemma LostTestMeans()
    ensures Eval(LOST.cond, ENV, 0) == Some(Broke(Obj(7), ENV))
  {
    hide Eval;
    var n := LOST.cond.els;
    LeavesMean();
    EvalIf(n.a, ENV, 0);
    EvalBreak(n.b, ENV, 0);
    EvalShort(n, ENV, 0);
    EvalIf(LOST.cond, ENV, 0);
  }

  lemma LeavesMean()
    ensures Eval(LVar(0), ENV, 0) == Some(Normal(NilV, ENV)) && Eval(NilLit, ENV, 0) == Some(Normal(NilV, ENV))
    ensures Eval(LVar(2), ENV, 0) == Some(Normal(NilV, ENV)) && Eval(LVar(3), ENV, 0) == Some(Normal(Obj(7), ENV))
  {
  }

  lemma LostMeans()
    ensures Eval(LOST, ENV, 0) == Some(Normal(Obj(7), ENV))
  {
    hide Eval;
    LostTestMeans();
    EvalWhile(LOST, ENV, 0);
  }

  /** The tree is tidy and its optimised list links, but with these variables, for which it means d's value, the
      words do not give that. */
  lemma LostValue()
    ensures WellFormed(LOST, false) && TidyTrees.Tidy(LOST) && Accepted(LOST)
    ensures Eval(LOST, ENV, 0) == Some(Normal(Obj(7), ENV))
    ensures !QuietRun(Rewritten(LOST), Start(ENV)) && !Right(LOST, ENV)
  {
    hide Rewritten, QuietRun, Right, Accepted, TidyTrees.Tidy, WellFormed, Eval;
    LostWell();
    LostTidy();
    LostAccepted();
    LostMeans();
    LostLoud();
    RightExactly(LOST, ENV);
  }
}
