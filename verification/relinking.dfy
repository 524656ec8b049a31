/** Linking the list that iseq_optimize leaves: which depths are recorded for it, when it links, and what the
    words then compute. */
module Relinking {
  import opened Nodes
  import opened Options
  import opened Lowering
  import opened Depths
  import opened Machine
  import opened Meaning
  import opened Linking
  import opened WordMachine
  import opened Optimized
  import opened Peephole
  import opened PeepholeStep
  import opened OptimizePass
  import NeatLists
  import opened Levels
  import opened LevelPass

  // ----- recorded depths -----

  /** Everything recorded before q is recorded at least as deep as it is. */
  ghost predicate Above(c: Code, h: Heights, q: nat)
    requires q <= |c|
  {
    var r := Depth(c, q);
    && r.sp >= Deep(c, h, q)
    && (forall l: nat :: l in r.sps ==> l in h && r.sps[l] >= h[l])
    && (forall j :: 0 <= j < q && c[j].L? ==> c[j].l in r.sps)
  }

  /** The depth recorded is never too small. */
  lemma {:induction false} NeverBelow(c: Code, h: Heights, q: nat)
    requires Leveled(c, h) && q <= |c|
    ensures Above(c, h, q)
    decreases q
  {
    hide Level, Real, Fold;
    if q == 0 {
      assert c[..0] == [];
      FoldNothing(Rec(0, map[]));
      assert Real(c, h, 0, 0) == 0 by { RealStart(c, h); }
    } else {
      NeverBelow(c, h, q - 1);
      DepthNext(c, q - 1);
      LevelHere(c, h, q - 1);
      if c[q - 1].Adj? {
        var j :| 0 <= j < q - 1 && c[j] == L(c[q - 1].l);
        assert c[j].l in Depth(c, q - 1).sps;
      }
    }
  }

  lemma RealStart(c: Code, h: Heights)
    ensures Real(c, h, 0, 0) == 0
  {
  }

  predicate Refers(c: Code, r: nat, l: nat) {
    r < |c| && c[r].I? && Target(c[r].insn) == Some(l)
  }

  /** Label l is jumped to from before q. */
  ghost predicate JumpedTo(c: Code, q: nat, l: nat) {
    exists r: nat :: r < q && Refers(c, r, l)
  }

  /** Every label that is met above its depth, behind a jump, has been jumped to before. */
  ghost predicate Recalled(c: Code, h: Heights) {
    forall q :: 0 <= q < |c| && c[q].L? && c[q].l in h && Deep(c, h, q) > h[c[q].l] ==> JumpedTo(c, q, c[q].l)
  }

  /** What is recorded before q is so exactly. */
  ghost predicate Exact(c: Code, h: Heights, q: nat)
    requires q <= |c|
  {
    var r := Depth(c, q);
    r.sp == Deep(c, h, q) && forall l: nat :: l in r.sps ==> l in h && r.sps[l] == h[l]
  }

  /** A jump records its label. */
  lemma {:induction false} JumpRecorded(c: Code, q: nat, l: nat)
    requires q <= |c| && JumpedTo(c, q, l)
    ensures l in Depth(c, q).sps
    decreases q
  {
    hide Fold;
    if q > 0 {
      DepthNext(c, q - 1);
      var r: nat :| r < q && Refers(c, r, l);
      if r < q - 1 {
        assert JumpedTo(c, q - 1, l);
        JumpRecorded(c, q - 1, l);
      }
    }
  }

  lemma {:induction false} RecalledExact(c: Code, h: Heights, q: nat)
    requires Leveled(c, h) && Recalled(c, h) && q <= |c|
    ensures Exact(c, h, q)
    decreases q
  {
    hide Level, Real, Fold, JumpedTo;
    if q == 0 {
      assert c[..0] == [];
      FoldNothing(Rec(0, map[]));
      RealStart(c, h);
    } else {
      RecalledExact(c, h, q - 1);
      NeverBelow(c, h, q - 1);
      DepthNext(c, q - 1);
      LevelHere(c, h, q - 1);
      if c[q - 1].L? && JumpedTo(c, q - 1, c[q - 1].l) { JumpRecorded(c, q - 1, c[q - 1].l); }
      if c[q - 1].Adj? {
        var j :| 0 <= j < q - 1 && c[j] == L(c[q - 1].l);
        assert c[j].l in Depth(c, q - 1).sps;
      }
    }
  }

  /** Only a label's place or a jump to it records it. */
  lemma {:induction false} RecordedWhy(c: Code, q: nat, l: nat)
    requires q <= |c| && l in Depth(c, q).sps
    ensures JumpedTo(c, q, l) || exists r :: 0 <= r < q && c[r] == L(l)
    decreases q
  {
    hide Fold;
    if q == 0 {
      assert c[..0] == [];
      FoldNothing(Rec(0, map[]));
    } else {
      DepthNext(c, q - 1);
      if l in Depth(c, q - 1).sps {
        RecordedWhy(c, q - 1, l);
        if JumpedTo(c, q - 1, l) {
          var r: nat :| r < q - 1 && Refers(c, r, l);
          assert JumpedTo(c, q, l);
        }
      } else if c[q - 1].I? {
        assert Refers(c, q - 1, l);
      } else {
        assert c[q - 1] == L(l);
      }
    }
  }

  /** The depth recorded is the true one everywhere exactly when every label met above its depth has been
      jumped to before. */
  lemma AgreesExactly(c: Code, h: Heights)
    requires Leveled(c, h) && NeatLists.Once(c)
    ensures (forall q :: 0 <= q <= |c| ==> Depth(c, q).sp == Deep(c, h, q)) <==> Recalled(c, h)
  {
    hide Level, Real, Depth, NeatLists.Once;
    if Recalled(c, h) {
      forall q | 0 <= q <= |c| ensures Depth(c, q).sp == Deep(c, h, q) { RecalledExact(c, h, q); }
    } else {
      var q :| 0 <= q < |c| && c[q].L? && c[q].l in h && Deep(c, h, q) > h[c[q].l] && !JumpedTo(c, q, c[q].l);
      var l := c[q].l;
      if l in Depth(c, q).sps {
        RecordedWhy(c, q, l);
        var r :| 0 <= r < q && c[r] == L(l);
        NeatLists.FindOnly(c, l, r);
        NeatLists.FindOnly(c, l, q);
        assert false;
      }
      DepthNext(c, q);
      LevelHere(c, h, q);
      assert Depth(c, q + 1).sp == Depth(c, q).sp;
    }
  }

  // ----- what linking refuses -----

  lemma {:induction false} DefsPlaced(c: Code, l: nat) returns (q: nat)
    requires Defs(c, l) > 0
    ensures q < |c| && c[q] == L(l)
    decreases |c|
  {
    if c[0] == L(l) {
      q := 0;
    } else {
      q := DefsPlaced(c[1..], l);
      q := q + 1;
    }
  }

  lemma {:induction false} OnceDefs(c: Code, l: nat)
    requires NeatLists.Once(c)
    ensures Defs(c, l) <= 1
    decreases |c|
  {
    if c != [] {
      assert forall a :: 0 <= a < |c[1..]| ==> c[1..][a] == c[a + 1];
      OnceDefs(c[1..], l);
      if c[0] == L(l) && Defs(c[1..], l) > 0 {
        var q := DefsPlaced(c[1..], l);
        assert false;
      }
    }
  }

  /** No adjustment has to push. */
  ghost predicate Downward(c: Code) {
    forall q :: 0 <= q < |c| && c[q].Adj? && c[q].emits ==> Depth(c, q).sp >= Depth(c, q + 1).sp
  }

  /** All that linking can refuse in a sealed list is an adjustment that would have to push. */
  lemma LinksExactly(c: Code)
    requires Sealed(c) && NeatLists.Once(c)
    ensures Links(c) <==> Downward(c)
  {
    hide Depth, NeatLists.Once, Defs, Find;
    forall l: nat ensures Defs(c, l) <= 1 { OnceDefs(c, l); }
    if Downward(c) {
      forall q | 0 <= q < |c| ensures Fine(c, q) {
        if c[q].I? && Target(c[q].insn).Some? { FindPlaced(c, Target(c[q].insn).value); }
      }
    } else {
      var q :| 0 <= q < |c| && c[q].Adj? && c[q].emits && Depth(c, q).sp < Depth(c, q + 1).sp;
      assert !Fine(c, q);
    }
  }

  /** No adjustment has anything to pop: that is so where linking generates a jump by nothing for each. */
  ghost predicate Calm(c: Code) {
    forall q :: 0 <= q < |c| && c[q].Adj? && c[q].emits ==> Depth(c, q).sp == Depth(c, q + 1).sp
  }

  /** So it is with exact depths. */
  lemma RecalledCalm(c: Code, h: Heights)
    requires Leveled(c, h) && Recalled(c, h)
    ensures Calm(c)
  {
    hide Level, Real, Depth, Recalled;
    forall q | 0 <= q < |c| && c[q].Adj? && c[q].emits ensures Depth(c, q).sp == Depth(c, q + 1).sp {
      RecalledExact(c, h, q);
      RecalledExact(c, h, q + 1);
      LevelHere(c, h, q);
    }
  }

  // ----- runs of a level list -----

  /** The stack is as deep as it should be here, and control can have come here. */
  ghost predicate Upright(c: Code, h: Heights, s: State) {
    s.pc < |c| && |s.stack| == Deep(c, h, s.pc) && !CutOff(c, false, s.pc)
  }

  /** The adjustment at hand, if there is one, pops nothing. */
  ghost predicate Quiet(c: Code, s: State) {
    s.pc < |c| && c[s.pc].Adj? && c[s.pc].emits ==> Depth(c, s.pc).sp == Depth(c, s.pc + 1).sp
  }

  /** One step: only leave stops, and where the two machines step they step alike. */
  lemma UprightStep(c: Code, h: Heights, s: State)
    requires Sealed(c) && Leveled(c, h) && Upright(c, h, s) && Quiet(c, s)
    ensures match Step(c, s)
            case None => AtLeaveOf(c, s)
            case Some(s1) =>
              && !AtLeaveOf(c, s) && Upright(c, h, s1)
              && if c[s.pc].L? then s1.pc == s.pc + 1 && Ahead(c, s1) == Ahead(c, s)
                 else Ahead(c, s) == s && Succ(c, h, s) == Some(Ahead(c, s1))
  {
    hide Level, Real, Depth, Find, Next, Dest, LevelAt;
    var e := c[s.pc];
    LevelHere(c, h, s.pc);
    match e
    case L(_) => LabelStep(c, h, s);
    case Adj(_, _) => AdjStep(c, h, s);
    case I(i) =>
      if Target(i).Some? {
        BranchStep(c, h, s);
      } else {
        PlainStep(c, h, s);
      }
  }

  lemma NotAtEnd(c: Code, q: nat)
    requires Sealed(c) && q < |c| && c[q] != I(Leave)
    ensures q + 1 < |c|
  {
  }

  lemma LabelStep(c: Code, h: Heights, s: State)
    requires Sealed(c) && Leveled(c, h) && Upright(c, h, s) && c[s.pc].L?
    ensures !AtLeaveOf(c, s) && Step(c, s).Some? && Upright(c, h, Step(c, s).value)
    ensures Step(c, s).value.pc == s.pc + 1 && Ahead(c, Step(c, s).value) == Ahead(c, s)
  {
    hide Level, Real, Depth, Find;
    LevelHere(c, h, s.pc);
    NotAtEnd(c, s.pc);
  }

  lemma NextStays(c: Code, q: nat)
    requires q < |c| && !c[q].L?
    ensures Next(c, q) == q
  {
  }

  lemma AdjStep(c: Code, h: Heights, s: State)
    requires Sealed(c) && Leveled(c, h) && Upright(c, h, s) && Quiet(c, s) && c[s.pc].Adj?
    ensures !AtLeaveOf(c, s) && Step(c, s).Some? && Upright(c, h, Step(c, s).value)
    ensures Ahead(c, s) == s && Succ(c, h, s) == Some(Ahead(c, Step(c, s).value))
  {
    hide Level, Real, Depth, Find, Next, Record;
    LevelHere(c, h, s.pc);
    NotAtEnd(c, s.pc);
    NextStays(c, s.pc);
    if c[s.pc].emits {
      AdjustRest(c, s.pc);
      assert s.stack == [] && s.stack[..0] == [];
    }
  }

  /** What a quiet adjustment pops. */
  lemma AdjustRest(c: Code, q: nat)
    requires q < |c| && c[q].Adj?
    ensures var r := Depth(c, q); Depth(c, q + 1).sp == if c[q].l in r.sps then r.sps[c[q].l] else -1
  {
    hide Fold;
    DepthNext(c, q);
  }

  lemma BranchStep(c: Code, h: Heights, s: State)
    requires Sealed(c) && Leveled(c, h) && Upright(c, h, s) && c[s.pc].I? && Target(c[s.pc].insn).Some?
    ensures !AtLeaveOf(c, s) && Step(c, s).Some? && Upright(c, h, Step(c, s).value)
    ensures Ahead(c, s) == s && Succ(c, h, s) == Some(Ahead(c, Step(c, s).value))
  {
    hide Level, Real, Depth, Find, Next, Record;
    var l := Target(c[s.pc].insn).value;
    LevelHere(c, h, s.pc);
    NotAtEnd(c, s.pc);
    NeatLists.FindIn(c, l);
    NotAtEnd(c, Find(c, l));
    LabelDeep(c, h, Find(c, l));
    LevelTarget(c, h, s.pc);
    JumpsAlike(c, h, s, Step(c, s).value);
  }

  lemma PlainStep(c: Code, h: Heights, s: State)
    requires Sealed(c) && Leveled(c, h) && Upright(c, h, s) && c[s.pc].I? && Target(c[s.pc].insn) == None
    ensures match Step(c, s)
            case None => AtLeaveOf(c, s)
            case Some(s1) =>
              !AtLeaveOf(c, s) && Upright(c, h, s1) && Ahead(c, s) == s && Succ(c, h, s) == Some(Ahead(c, s1))
  {
    hide Level, Real, Depth, Find, Next, Record;
    LevelHere(c, h, s.pc);
    NextStays(c, s.pc);
    if c[s.pc] != I(Leave) { NotAtEnd(c, s.pc); }
  }
}
