/** Lists on which every retry of the optimiser ends and no jump is merged with the branch in front of it
    while something else leads to the jump. What makes a list neat can be read off the list itself. */
module NeatLists {
  import opened Nodes
  import opened Options
  import opened Lowering
  import opened Machine
  import opened Peephole
  import opened PeepholeStep
  import opened OptimizePass

  // ----- neat lists -----

  /** Label l leads to something other than a jump. */
  ghost predicate Firm(c: Code, l: nat) {
    Dest(c, l) < |c| && !IsJump(c, Dest(c, l))
  }

  /** A jump with a label right in front of it. */
  predicate Landed(c: Code, q: nat) {
    0 < q && IsJump(c, q) && c[q - 1].L?
  }

  /** Nothing but labels and jumps between p and o. */
  ghost predicate Open(c: Code, p: int, o: nat) {
    -1 <= p && o <= |c| && forall j :: p < j < o ==> c[j].L? || IsJump(c, j)
  }

  /** Between jumps there is something else. */
  ghost predicate Spaced(c: Code) {
    forall q: nat :: IsJump(c, q) ==> !IsJump(c, q + 1)
  }

  /** A jump that can be jumped to leads forward, or to something other than a jump. */
  ghost predicate Forward(c: Code) {
    forall q: nat :: Landed(c, q) ==> Find(c, c[q].insn.l) > q || Firm(c, c[q].insn.l)
  }

  /** The jump behind a branch that leads right behind that jump. */
  predicate Paired(c: Code, q: nat) {
    0 < q && IsBranch(c, q - 1) && IsJump(c, q) && q + 1 < |c| && c[q + 1] == L(c[q].insn.l)
  }

  /** A jump with only labels and jumps between it and a branch in front stands right behind the branch,
      or behind where the branch leads, or behind a paired jump and its label. */
  ghost predicate Pockets(c: Code) {
    forall p: nat, o: nat :: IsBranch(c, p) && p < o && IsJump(c, o) && Open(c, p, o) ==>
      || o == p + 1
      || p < Find(c, Target(c[p].insn).value) < o
      || (o == p + 3 && Paired(c, p + 1))
  }

  /** Only jumps right behind a branch lead to a paired jump's label, and none behind it does. */
  ghost predicate Owned(c: Code) {
    forall q: nat, r: nat :: Paired(c, q) && r < |c| && c[r].I? && Target(c[r].insn) == Some(c[q].insn.l) ==>
      r <= q && 0 < r && IsJump(c, r) && IsBranch(c, r - 1)
  }

  /** No label is placed twice. */
  ghost predicate Once(c: Code) {
    forall a, b :: 0 <= a < |c| && 0 <= b < |c| && c[a].L? && c[a] == c[b] ==> a == b
  }

  ghost predicate Neat(c: Code) {
    Sealed(c) && Once(c) && Spaced(c) && Forward(c) && Pockets(c) && Owned(c)
  }

  // ----- places -----

  lemma {:induction false} FindFirst(c: Code, l: nat, q: nat)
    requires q < |c| && c[q] == L(l) && forall j :: 0 <= j < q ==> c[j] != L(l)
    ensures Find(c, l) == q
    decreases q
  {
    if q > 0 { FindFirst(c[1..], l, q - 1); }
  }

  lemma FindOnly(c: Code, l: nat, q: nat)
    requires Once(c) && q < |c| && c[q] == L(l)
    ensures Find(c, l) == q
  {
    FindFirst(c, l, q);
  }

  lemma FindIn(c: Code, l: nat)
    requires Find(c, l) < |c|
    ensures c[Find(c, l)] == L(l)
  {
    FindPlaced(c, l);
  }

  /** Only labels lie between a label and where it leads. */
  lemma Landing(c: Code, l: nat)
    requires Find(c, l) < |c|
    ensures Find(c, l) < Dest(c, l) <= |c| && c[Dest(c, l) - 1].L?
    ensures forall j :: Find(c, l) < j < Dest(c, l) ==> c[j].L?
    ensures Dest(c, l) < |c| ==> !c[Dest(c, l)].L?
  {
    FindPlaced(c, l);
    NextSkips(c, Find(c, l) + 1);
    hide Find;
    var d := Dest(c, l);
    assert d - 1 == Find(c, l) || Find(c, l) < d - 1 < d;
  }

  lemma LandingIs(c: Code, l: nat, d: nat)
    requires Find(c, l) < d < |c| && !c[d].L? && forall j :: Find(c, l) < j < d ==> c[j].L?
    ensures Dest(c, l) == d
  {
    NextIs(c, Find(c, l) + 1, d);
  }

  /** The label in front of an element is what lets it be reached by a jump. */
  lemma DestBehind(c: Code, l: nat, i: nat)
    requires Find(c, l) < |c| && i < |c| && !c[i].L?
    ensures Find(c, l) < i ==> Dest(c, l) <= i
    ensures Find(c, l) != i && (Dest(c, l) == i ==> 0 < i && c[i - 1].L? && Find(c, l) < i)
  {
    Landing(c, l);
    FindIn(c, l);
    hide Dest, Find;
    assert !c[i].L?;
  }

  // ----- how far the pass has come -----

  /** Some jump that can be jumped to leads to l. */
  ghost predicate LandedTo(c: Code, l: nat) {
    exists q: nat :: Landed(c, q) && c[q].insn.l == l
  }

  /** What is known of the branch p in front of element i, when only labels are between the two and a
      jump is next: it is the branch op of the original list, and it leads where that led, or where the
      jump there leads. */
  ghost predicate Held(c0: Code, o: nat, c: Code, i: nat, p: nat, op: nat)
    requires IsBranch(c, p) && i <= |c|
  {
    && op < o && IsBranch(c0, op) && Open(c0, op, o)
    && (forall l: nat :: p < Find(c, l) < i <==> op < Find(c0, l) < o)
    && Led(c0, o, c, i, Target(c[p].insn).value, op, Target(c0[op].insn).value)
  }

  ghost predicate Led(c0: Code, o: nat, c: Code, i: nat, t: nat, op: nat, t0: nat)
    requires i <= |c|
  {
    || (Firm(c, t) && (t == t0 || Find(c0, t0) < op))
    || (op < Find(c0, t0) && IsJump(c0, Dest(c0, t0)) && t == c0[Dest(c0, t0)].insn.l
        && (Dest(c0, t0) >= o || Find(c, t) < Next(c, i)))
  }

  ghost predicate Pocket(c0: Code, o: nat, c: Code, i: nat)
    requires i <= |c|
  {
    var p := Prev(c, i);
    p.Some? && IsBranch(c, p.value) && IsJump(c, Next(c, i)) ==> exists op: nat :: Held(c0, o, c, i, p.value, op)
  }

  /** The calls on the elements of c0 before o have made c of it, and element i is next. */
  ghost predicate Steady(c0: Code, o: nat, c: Code, i: nat) {
    && o <= |c0| && i <= |c| && c[i..] == c0[o..]
    && Sealed(c) && Once(c) && FirmStays(c0, c)
    && JumpsFirm(c, i) && BranchesLed(c0, c, i) && Seam(c0, o, c, i) && Pocket(c0, o, c, i)
  }

  ghost predicate FirmStays(c: Code, c': Code) {
    forall l: nat :: Firm(c, l) ==> Firm(c', l)
  }

  /** The jumps before i lead to something other than a jump. */
  ghost predicate JumpsFirm(c: Code, i: nat) {
    forall q: nat :: q < i && IsJump(c, q) ==> Firm(c, c[q].insn.l)
  }

  /** So do the branches, or they have been led on through a jump that can be jumped to. */
  ghost predicate BranchesLed(c0: Code, c: Code, i: nat) {
    forall q: nat :: q < i && IsBranch(c, q) ==>
      Firm(c, Target(c[q].insn).value) || LandedTo(c0, Target(c[q].insn).value)
  }

  /** A label in front of what is next was there before, or came there with a jump's removal. */
  ghost predicate Seam(c0: Code, o: nat, c: Code, i: nat)
    requires o <= |c0| && i <= |c|
  {
    0 < i && c[i - 1].L? ==> 0 < o && (c0[o - 1].L? || IsJump(c0, o - 1))
  }

  // ----- the part ahead -----

  lemma {:induction false} NextAhead(c0: Code, o: nat, c: Code, i: nat, q: nat)
    requires o <= |c0| && i <= q <= |c| && c[i..] == c0[o..]
    ensures q - i + o <= |c0| && Next(c, q) - i + o == Next(c0, q - i + o)
    decreases |c| - q
  {
    assert |c| - i == |c0| - o;
    if q < |c| {
      assert c[q] == c[i..][q - i] == c0[o..][q - i] == c0[q - i + o];
      if c[q].L? { NextAhead(c0, o, c, i, q + 1); }
    }
  }

  lemma Ahead(c0: Code, o: nat, c: Code, i: nat, q: nat)
    requires o <= |c0| && i <= q < |c| && c[i..] == c0[o..]
    ensures q - i + o < |c0| && c[q] == c0[q - i + o]
  {
    assert |c| - i == |c0| - o;
    assert c[q] == c[i..][q - i] == c0[o..][q - i];
  }

  lemma LabelThere(c0: Code, o: nat, c: Code, i: nat, l: nat)
    requires o <= |c0| && i <= Find(c, l) < |c| && c[i..] == c0[o..] && Once(c0)
    ensures Find(c0, l) == Find(c, l) - i + o < |c0|
  {
    hide Find, Once;
    FindIn(c, l);
    Ahead(c0, o, c, i, Find(c, l));
    FindOnly(c0, l, Find(c, l) - i + o);
  }

  /** A label ahead in the one list is as far ahead in the other. */
  lemma LabelAhead(c0: Code, o: nat, c: Code, i: nat, l: nat)
    requires o <= |c0| && i <= |c| && c[i..] == c0[o..] && Once(c) && Once(c0)
    requires i <= Find(c, l) < |c| || o <= Find(c0, l) < |c0|
    ensures i <= Find(c, l) < |c| && o <= Find(c0, l) < |c0| && Find(c, l) - i == Find(c0, l) - o
    ensures Dest(c, l) - i == Dest(c0, l) - o
  {
    hide *;
    if i <= Find(c, l) < |c| { LabelThere(c0, o, c, i, l); } else { LabelThere(c, i, c0, o, l); }
    DestThere(c0, o, c, i, l);
  }

  lemma DestThere(c0: Code, o: nat, c: Code, i: nat, l: nat)
    requires o <= |c0| && i <= Find(c, l) < |c| && c[i..] == c0[o..] && Find(c0, l) - o == Find(c, l) - i
    requires Find(c0, l) < |c0|
    ensures Dest(c, l) - i == Dest(c0, l) - o
  {
    hide *;
    NextAhead(c0, o, c, i, Find(c, l) + 1);
    DestIs(c, l);
    DestIs(c0, l);
  }

  lemma DestIs(c: Code, l: nat)
    requires Find(c, l) < |c|
    ensures Dest(c, l) == Next(c, Find(c, l) + 1)
  {
    hide Find, Next;
  }

  lemma LabelBehind(c0: Code, o: nat, c: Code, i: nat, l: nat)
    requires o <= |c0| && i <= |c| && c[i..] == c0[o..] && Once(c) && Once(c0)
    requires Find(c, l) < |c| && Find(c0, l) < |c0|
    ensures Find(c, l) < i <==> Find(c0, l) < o
  {
    hide Find, Dest, Once;
    if Find(c, l) >= i || Find(c0, l) >= o { LabelAhead(c0, o, c, i, l); }
  }

  // ----- the retry of the jump at hand -----

  /** The call on the jump at i goes well from label l on. */
  ghost predicate Manageable(c: Code, i: nat, l: nat) {
    Find(c, l) < |c| && (Firm(c, l) || i < Find(c, l) || Dest(c, l) < i)
  }

  /** How many retries there may still be. */
  ghost function Remaining(c: Code, i: nat, l: nat): nat {
    if Firm(c, l) then 1 else if i < Find(c, l) < |c| then |c| - Find(c, l) + 1 else 2
  }

  /** What the pass relies on, without what it knows of branches. */
  lemma Basics(c0: Code, o: nat, c: Code, i: nat)
    requires Neat(c0) && Steady(c0, o, c, i)
    ensures o <= |c0| && i <= |c| && c[i..] == c0[o..] && Sealed(c) && Once(c) && Sealed(c0) && Once(c0)
    ensures FirmStays(c0, c)
  {
    hide Sealed, Once, Spaced, Forward, Pockets, Owned, FirmStays, JumpsFirm, BranchesLed, Seam, Pocket;
  }

  /** A jump ahead that a label leads to has led ahead from the start, or to something other than a jump. */
  lemma JumpAhead(c0: Code, o: nat, c: Code, i: nat, l: nat)
    requires Neat(c0) && Steady(c0, o, c, i)
    requires i < |c| && !c[i].L? && Find(c, l) < |c| && i < Dest(c, l) && IsJump(c, Dest(c, l))
    ensures i < Find(c, l) < Dest(c, l)
    ensures var l2 := c[Dest(c, l)].insn.l;
            Find(c, l2) < |c| && (Dest(c, l) < Find(c, l2) || Firm(c, l2))
  {
    hide Find, Dest, Sealed, Neat, Steady, Firm, Once, FirmStays, Landed;
    var d := Dest(c, l);
    var d0, l2 := d - i + o, c[d].insn.l;
    Basics(c0, o, c, i);
    DestBehind(c, l, i);
    DestBehind(c, l, d);
    JumpPlaced(c, d);
    LandedAhead(c0, o, c, i, d);
    LandedForward(c0, d0);
    FirmBoth(c0, c, l2);
    if !Firm(c, l2) {
      JumpPlaced(c0, d0);
      LabelAhead(c0, o, c, i, l2);
    }
  }

  lemma LandedAhead(c0: Code, o: nat, c: Code, i: nat, d: nat)
    requires o <= |c0| && i < d && i <= |c| && c[i..] == c0[o..] && IsJump(c, d) && c[d - 1].L?
    ensures Landed(c0, d - i + o) && c0[d - i + o] == c[d]
  {
    Ahead(c0, o, c, i, d);
    Ahead(c0, o, c, i, d - 1);
  }

  lemma LandedForward(c: Code, q: nat)
    requires Neat(c) && Landed(c, q)
    ensures Find(c, c[q].insn.l) > q || Firm(c, c[q].insn.l)
  {
    hide Sealed, Once, Spaced, Pockets, Owned, Firm, Find;
  }

  lemma DoneFirm(c0: Code, o: nat, c: Code, i: nat, q: nat)
    requires Steady(c0, o, c, i) && q < i && IsJump(c, q)
    ensures Firm(c, c[q].insn.l)
  {
    hide Sealed, Once, FirmStays, Seam, Pocket, Firm, LandedTo;
  }

  /** One retry: on to a label that is further ahead, or leads to something other than a jump. */
  lemma RetryAhead(c0: Code, o: nat, c: Code, i: nat, l: nat)
    requires Neat(c0) && Steady(c0, o, c, i) && IsJump(c, i) && Manageable(c, i, l) && LeadsOn(c, i, l).Some?
    ensures var l2 := LeadsOn(c, i, l).value;
            && Manageable(c, i, l2) && Remaining(c, i, l2) < Remaining(c, i, l)
            && (Firm(c, l2) || (i < Find(c, l) && Dest(c, l) < Find(c, l2)))
  {
    hide Neat, Steady, Find, Dest, Next;
    var d, l2 := Dest(c, l), LeadsOn(c, i, l).value;
    assert IsJump(c, d) && c[d].insn.l == l2 && d != i && !Firm(c, l);
    if d > i {
      JumpAhead(c0, o, c, i, l);
    } else {
      DoneFirm(c0, o, c, i, d);
      Landing(c, l);
      Placing(c, l2);
    }
  }

  lemma Placing(c: Code, l: nat)
    requires Dest(c, l) < |c|
    ensures Find(c, l) < |c|
  {
  }

  /** The retry ends, and its last label leads to what follows the jump or to something other than a
      jump. */
  lemma {:induction false} SettleFirm(c0: Code, o: nat, c: Code, i: nat, l: nat, k: nat)
    requires Neat(c0) && Steady(c0, o, c, i) && IsJump(c, i) && Manageable(c, i, l) && Remaining(c, i, l) <= k
    ensures var r := Settle(c, i, l, k);
            && Chase(c, i, l, k).None?
            && (Dest(c, r) == Next(c, i + 1) || Firm(c, r))
            && (i < Find(c, l) ==> r == l || Firm(c, r) || Dest(c, l) < Dest(c, r))
    decreases k
  {
    hide Neat, Steady, Find, Next;
    if LeadsOn(c, i, l).None? {
      SettledFirm(c0, o, c, i, l);
    } else {
      var l2 := LeadsOn(c, i, l).value;
      RetryAhead(c0, o, c, i, l);
      SettleFirm(c0, o, c, i, l2, k - 1);
      if !Firm(c, l2) { Landing(c, l2); }
      hide LeadsOn, Firm, Manageable, Remaining, Dest;
    }
  }

  /** Where there is no retry. */
  lemma SettledFirm(c0: Code, o: nat, c: Code, i: nat, l: nat)
    requires Neat(c0) && Steady(c0, o, c, i) && IsJump(c, i) && Manageable(c, i, l) && LeadsOn(c, i, l).None?
    ensures Dest(c, l) == Next(c, i + 1) || Firm(c, l)
  {
    hide Neat, Steady, Find, Next, Dest, Once;
    var d := Dest(c, l);
    Basics(c0, o, c, i);
    SealedDest(c, l);
    if IsJump(c, d) && d != i && d != Next(c, i + 1) {
      if d > i { JumpAhead(c0, o, c, i, l); } else { DoneFirm(c0, o, c, i, d); }
    }
  }

  /** The jump at i is one whose call goes well. */
  lemma StartsManageable(c0: Code, o: nat, c: Code, i: nat)
    requires Neat(c0) && Steady(c0, o, c, i) && IsJump(c, i)
    ensures Manageable(c, i, c[i].insn.l)
  {
    hide Neat, Steady, Find, Dest, Firm;
    var l := c[i].insn.l;
    Basics(c0, o, c, i);
    JumpPlaced(c, i);
    DestBehind(c, l, i);
    if Find(c, l) < i && Dest(c, l) == i { LandsAtJump(c0, o, c, i); }
  }

  /** A jump at hand with a label in front leads ahead, or to something other than a jump. */
  lemma LandsAtJump(c0: Code, o: nat, c: Code, i: nat)
    requires Neat(c0) && Steady(c0, o, c, i) && IsJump(c, i) && 0 < i && c[i - 1].L?
    ensures i < Find(c, c[i].insn.l) || Firm(c, c[i].insn.l)
  {
    var l := c[i].insn.l;
    assert Forward(c0) && 0 < o && (c0[o - 1].L? || !IsJump(c0, o)) by {
      hide Sealed, Once, Forward, Pockets, Owned, FirmStays, JumpsFirm, BranchesLed, Pocket;
      assert IsJump(c0, o) ==> !IsJump(c0, o - 1);
    }
    hide Neat, Steady, Find, Dest, Firm;
    Basics(c0, o, c, i);
    Ahead(c0, o, c, i, i);
    assert Landed(c0, o);
    if !Firm(c, l) {
      JumpPlaced(c0, o);
      LabelAhead(c0, o, c, i, l);
    }
  }

  /** What a call on a jump comes to. */
  lemma CallEnds(c0: Code, o: nat, c: Code, i: nat)
    requires Neat(c0) && Steady(c0, o, c, i) && IsJump(c, i)
    ensures RetryEnds(c, i)
    ensures var l, r := c[i].insn.l, Settle(c, i, c[i].insn.l, |c| + 1);
            && (Dest(c, r) == Next(c, i + 1) || Firm(c, r))
            && (i < Find(c, l) ==> r == l || Firm(c, r) || Dest(c, l) < Dest(c, r))
  {
    hide Neat, Steady, Settle, Find, Dest, Next;
    var l := c[i].insn.l;
    StartsManageable(c0, o, c, i);
    SettleFirm(c0, o, c, i, l, |c| + 1);
    assert Finite(c, i, l);
  }

  // ----- the pocket at hand -----

  /** Between a branch and the jump behind it there are only labels, and they lead to the jump. */
  lemma InPocket(c: Code, i: nat, l: nat)
    requires i < |c| && !c[i].L? && Prev(c, i).Some? && Find(c, l) < |c|
    ensures Prev(c, i).value < Find(c, l) < i ==> Dest(c, l) == i
    ensures Dest(c, l) == i ==> Prev(c, i).value < Find(c, l) < i
  {
    Landing(c, l);
    FindIn(c, l);
    hide Find, Dest, Prev;
    var p := Prev(c, i).value;
    if p < Find(c, l) < i { LandingIs(c, l, i); }
  }

  /** What is known of the branch in front of the jump at hand. */
  lemma HeldAt(c0: Code, o: nat, c: Code, i: nat) returns (op: nat)
    requires Steady(c0, o, c, i) && IsJump(c, i) && Prev(c, i).Some? && IsBranch(c, Prev(c, i).value)
    ensures Held(c0, o, c, i, Prev(c, i).value, op)
  {
    hide Sealed, Once, FirmStays, JumpsFirm, BranchesLed, Seam, Held, Prev;
    op :| Held(c0, o, c, i, Prev(c, i).value, op);
  }

  /** The jump at i would be merged: the branch in front leads right behind it, and the jump leads
      elsewhere, wherever it is led on. */
  ghost predicate Merging(c: Code, i: nat) {
    && IsJump(c, i) && Prev(c, i).Some? && IsBranch(c, Prev(c, i).value)
    && Dest(c, Target(c[Prev(c, i).value].insn).value) == Next(c, i + 1)
    && Dest(c, Settle(c, i, c[i].insn.l, |c| + 1)) != Next(c, i + 1)
  }

  /** The jump the branch was led on through is not the one at hand, and lies behind it: where it leads is
      not right behind the one at hand either. */
  lemma ThroughOther(c0: Code, o: nat, c: Code, i: nat, t: nat, op: nat, t0: nat)
    requires Neat(c0) && Steady(c0, o, c, i) && Merging(c, i) && t == Target(c[Prev(c, i).value].insn).value
    requires op < Find(c0, t0) && IsJump(c0, Dest(c0, t0)) && t == c0[Dest(c0, t0)].insn.l && Find(c0, t0) < |c0|
    requires Dest(c0, t0) >= o || Find(c, t) < Next(c, i)
    ensures Firm(c, t)
  {
    hide Neat, Steady, Find, Dest, Next, Prev, Firm, Settle, Once;
    var j, x := Dest(c0, t0), Next(c, i + 1);
    Basics(c0, o, c, i);
    assert Find(c, t) < |c| by { BranchPlaced(c, Prev(c, i).value); }
    assert Next(c, i) == i by { NextHere(c, i); }
    NextPast(c, i);
    DestBehind(c, t, i);
    Landing(c, t);
    assert i < Find(c, t) < x;
    Ahead(c0, o, c, i, i);
    if j == o {
      assert c[i].insn.l == t;
      NoRetry(c, i, t);
      assert false;
    }
    Landing(c0, t0);
    LandedForward(c0, j);
    if !Firm(c, t) {
      LabelAhead(c0, o, c, i, t);
      NextAhead(c0, o, c, i, i + 1);
      BetweenLabels(c0, o, j);
      assert false;
    }
  }

  lemma BetweenLabels(c: Code, o: nat, j: nat)
    requires o < j < |c| && !c[j].L?
    ensures Next(c, o + 1) <= j
  {
    NextSkips(c, o + 1);
    hide Next;
    assert !c[j].L?;
  }

  lemma NextHere(c: Code, i: nat)
    requires i < |c| && !c[i].L?
    ensures Next(c, i) == i
  {
  }

  lemma NextPast(c: Code, i: nat)
    requires i < |c|
    ensures i < Next(c, i + 1) <= |c|
  {
  }

  lemma BranchPlaced(c: Code, q: nat)
    requires Sealed(c) && IsBranch(c, q)
    ensures Find(c, Target(c[q].insn).value) < |c|
  {
  }

  lemma NoRetry(c: Code, i: nat, l: nat)
    requires IsJump(c, i) && Dest(c, l) == Next(c, i + 1)
    ensures Settle(c, i, l, |c| + 1) == l
  {
    hide Dest, Next;
  }

  /** The branch does not lead into the pocket. */
  lemma NotInside(c0: Code, o: nat, c: Code, i: nat, op: nat)
    requires Neat(c0) && Steady(c0, o, c, i) && Merging(c, i) && Held(c0, o, c, i, Prev(c, i).value, op)
    ensures !(op < Find(c0, Target(c0[op].insn).value) < o)
  {
    hide Neat, Steady, Find, Dest, Next, Prev, Settle;
    var p := Prev(c, i).value;
    var t, t0, x := Target(c[p].insn).value, Target(c0[op].insn).value, Next(c, i + 1);
    Basics(c0, o, c, i);
    BranchPlaced(c, p);
    BranchPlaced(c0, op);
    Ahead(c0, o, c, i, i);
    NextHere(c, i);
    NextPast(c, i);
    InPocket(c, i, t);
    DestBehind(c, t, i);
    DestBehind(c0, t0, o);
    if op < Find(c0, t0) < o {
      assert p < Find(c, t0) < i;
      if c[i].insn.l == t { NoRetry(c, i, t); }
      assert false;
    }
  }

  /** A jump right behind its branch has no label in front. */
  lemma Adjacent(c0: Code, o: nat, c: Code, i: nat, p: nat, op: nat, l: nat)
    requires i < |c| && IsBranch(c, p) && Held(c0, o, c, i, p, op) && o == op + 1
    ensures !(p < Find(c, l) < i)
  {
    hide Find, Led;
  }

  /** Nothing leads to a jump behind a paired one. */
  lemma BehindPaired(c0: Code, o: nat, c: Code, i: nat, op: nat, q: nat)
    requires Neat(c0) && Steady(c0, o, c, i) && Merging(c, i) && Held(c0, o, c, i, Prev(c, i).value, op)
    requires o == op + 3 && Paired(c0, op + 1)
    requires q < |c| && c[q].I? && Target(c[q].insn).Some?
    ensures Dest(c, Target(c[q].insn).value) != i
  {
    hide Steady, Find, Dest, Next, Prev, Settle, Led, Sealed, Spaced, Forward, Pockets, Neat, Owned;
    var l, p := Target(c[q].insn).value, Prev(c, i).value;
    Basics(c0, o, c, i);
    assert Find(c, l) < |c| by { RefPlaced(c, q); }
    if Dest(c, l) == i {
      InPocket(c, i, l);
      FindIn(c0, l);
      assert Find(c0, l) == op + 2 && c0[op + 2] == L(l);
      assert c0[op + 1].insn.l == l;
      if q >= i {
        Ahead(c0, o, c, i, q);
        OwnedBy(c0, op + 1, q - i + o);
        assert false;
      } else if IsJump(c, q) {
        DoneFirm(c0, o, c, i, q);
        assert false;
      } else {
        DoneBranch(c0, o, c, i, q);
        assert !Firm(c, l);
        var r: nat :| Landed(c0, r) && c0[r].insn.l == l;
        OwnedBy(c0, op + 1, r);
        assert false;
      }
    }
  }

  lemma OwnedBy(c: Code, q: nat, r: nat)
    requires Neat(c) && Paired(c, q) && r < |c| && c[r].I? && Target(c[r].insn) == Some(c[q].insn.l)
    ensures r <= q && 0 < r && IsBranch(c, r - 1)
  {
    hide Sealed, Once, Spaced, Forward, Pockets, Paired;
  }

  lemma RefPlaced(c: Code, q: nat)
    requires Sealed(c) && q < |c| && c[q].I? && Target(c[q].insn).Some?
    ensures Find(c, Target(c[q].insn).value) < |c|
  {
  }

  lemma DoneBranch(c0: Code, o: nat, c: Code, i: nat, q: nat)
    requires Steady(c0, o, c, i) && q < i && IsBranch(c, q)
    ensures Firm(c, Target(c[q].insn).value) || LandedTo(c0, Target(c[q].insn).value)
  {
    hide Sealed, Once, FirmStays, Seam, Pocket, Firm, LandedTo;
  }

  /** The branch in front of a jump to be merged leads to something other than a jump, and nothing else
      leads to the jump. */
  lemma MergingSafe(c0: Code, o: nat, c: Code, i: nat)
    requires Neat(c0) && Steady(c0, o, c, i) && Merging(c, i)
    ensures !IsJump(c, Next(c, i + 1)) && Unjumped(c, i)
  {
    hide Neat, Steady, Find, Dest, Next, Prev, Settle;
    var p := Prev(c, i).value;
    var op := HeldAt(c0, o, c, i);
    var t, t0 := Target(c[p].insn).value, Target(c0[op].insn).value;
    Basics(c0, o, c, i);
    BranchPlaced(c, p);
    BranchPlaced(c0, op);
    Ahead(c0, o, c, i, i);
    if !Firm(c, t) { ThroughOther(c0, o, c, i, t, op, t0); }
    NotInside(c0, o, c, i, op);
    assert o == op + 1 || (o == op + 3 && Paired(c0, op + 1)) by { InSomePocket(c0, op, o); }
    hide Held, Paired, Firm;
    forall q | 0 <= q < |c| && c[q].I? && Target(c[q].insn).Some? ensures Dest(c, Target(c[q].insn).value) != i {
      var l := Target(c[q].insn).value;
      if o == op + 1 {
        RefPlaced(c, q);
        InPocket(c, i, l);
        Adjacent(c0, o, c, i, p, op, l);
      } else {
        BehindPaired(c0, o, c, i, op, q);
      }
    }
  }

  lemma InSomePocket(c: Code, p: nat, o: nat)
    requires Neat(c) && IsBranch(c, p) && p < o && IsJump(c, o) && Open(c, p, o)
    ensures o == p + 1 || p < Find(c, Target(c[p].insn).value) < o || (o == p + 3 && Paired(c, p + 1))
  {
    hide Sealed, Once, Spaced, Forward, Owned, Open, Paired, Find;
  }

  // ----- what a change keeps -----

  lemma FirmUpdate(c: Code, q: nat, e: Elem)
    requires q < |c| && c[q].I? && e.I? && (c[q].insn.Jump? <==> e.insn.Jump?)
    ensures FirmStays(c, c[q := e]) && FirmStays(c[q := e], c)
  {
    hide Dest;
    forall l: nat ensures Firm(c, l) <==> Firm(c[q := e], l) { UpdateKeeps(c, q, e, 0, l); }
  }

  lemma FirmRemove(c: Code, i: nat)
    requires IsJump(c, i)
    ensures FirmStays(c, Remove(c, i))
  {
    hide Dest, Next;
    forall l: nat | Firm(c, l) ensures Firm(Remove(c, i), l) { RemoveDest(c, i, l); }
  }

  lemma FirmLeaving(c: Code, i: nat)
    requires IsJump(c, i)
    ensures FirmStays(c, Leaving(c, i))
  {
    hide Dest, Next;
    var c1, c' := c[i := I(Leave)], Leaving(c, i);
    assert Remove(c', i + 1) == c1;
    forall l: nat | Firm(c, l) ensures Firm(c', l) {
      UpdateKeeps(c, i, I(Leave), 0, l);
      RemoveDest(c', i + 1, l);
      Placing(c, l);
      assert Dest(c', l) < |c'| by { hide FirmStays; LeavingDest(c, i, l); }
    }
  }

  lemma LeavingDest(c: Code, i: nat, l: nat)
    requires i < |c| && !c[i].L? && Dest(c, l) < |c|
    ensures Dest(Leaving(c, i), l) < |c| + 1
  {
    var c' := Leaving(c, i);
    assert Remove(c', i + 1) == c[i := I(Leave)];
    UpdateKeeps(c, i, I(Leave), 0, l);
    RemoveDest(c', i + 1, l);
    hide Dest, Next;
  }

  lemma OnceUpdate(c: Code, q: nat, e: Elem)
    requires Once(c) && q < |c| && !c[q].L? && !e.L?
    ensures Once(c[q := e])
  {
  }

  lemma OnceRemove(c: Code, i: nat)
    requires Once(c) && i < |c|
    ensures Once(Remove(c, i))
  {
    var c' := Remove(c, i);
    forall a, b | 0 <= a < |c'| && 0 <= b < |c'| && c'[a].L? && c'[a] == c'[b] ensures a == b {
      assert c'[a] == c[if a < i then a else a + 1] && c'[b] == c[if b < i then b else b + 1];
    }
  }

  lemma OnceLeaving(c: Code, i: nat)
    requires Once(c) && i < |c|
    ensures Once(Leaving(c, i))
  {
    var c' := Leaving(c, i);
    forall a, b | 0 <= a < |c'| && 0 <= b < |c'| && c'[a].L? && c'[a] == c'[b] ensures a == b {
      assert a < i || a > i + 1;
      assert b < i || b > i + 1;
      assert c'[a] == c[if a < i then a else a - 1] && c'[b] == c[if b < i then b else b - 1];
    }
  }

  // ----- one element further -----

  /** What the call on a jump comes to, in terms of where its last label leads. */
  lemma CalledIs(c: Code, i: nat)
    requires IsJump(c, i) && Sealed(c)
    ensures var r, (c', kind) := Settle(c, i, c[i].insn.l, |c| + 1), Called(c, i);
            && (kind == Removed <==> Dest(c, r) == Next(c, i + 1))
            && match kind
               case Kept => c' == c[i := I(Jump(r))]
               case Removed => c' == Remove(c, i)
               case Left => c' == Leaving(c, i)
               case Inverted =>
                 Merging(c, i) && var p := Prev(c, i).value; c' == Remove(c[p := I(Opposite(c[p].insn, r))], i)
  {
    var r := Settle(c, i, c[i].insn.l, |c| + 1);
    var c1 := LedOn(c, i);
    assert Retargeted(c, c1, i);
    RetargetedKeeps(c, c1, i);
    hide Dest, Next, Prev, Settle, Find;
    match Called(c, i).1
    case Inverted =>
      var p := Prev(c, i).value;
      assert c1[p] == c[p];
      assert Remove(Flipped(c1, p, i), i) == Remove(c[p := I(Opposite(c[p].insn, r))], i);
    case _ =>
  }

  /** Behind an element other than a branch there is no pocket. */
  lemma NoPocket(c0: Code, o: nat, c: Code, i: nat)
    requires 0 < i <= |c| && !c[i - 1].L? && !IsBranch(c, i - 1)
    ensures Pocket(c0, o, c, i)
  {
  }

  lemma StepPlain(c0: Code, o: nat, c: Code, i: nat)
    requires Neat(c0) && Steady(c0, o, c, i) && i < |c| && !c[i].L? && !IsJump(c, i) && !IsBranch(c, i)
    ensures Steady(c0, o + 1, c, i + 1)
  {
    Basics(c0, o, c, i);
    Ahead(c0, o, c, i, i);
    hide Neat, Sealed, Once, FirmStays, Firm, LandedTo, Pocket;
    NoPocket(c0, o + 1, c, i + 1);
    assert c[i + 1..] == c[i..][1..] && c0[o + 1..] == c0[o..][1..];
  }

  lemma StepLabel(c0: Code, o: nat, c: Code, i: nat)
    requires Neat(c0) && Steady(c0, o, c, i) && i < |c| && c[i].L?
    ensures Steady(c0, o + 1, c, i + 1)
  {
    Basics(c0, o, c, i);
    Ahead(c0, o, c, i, i);
    PocketLabel(c0, o, c, i);
    hide Neat, Sealed, Once, FirmStays, Firm, LandedTo, Pocket;
    assert c[i + 1..] == c[i..][1..] && c0[o + 1..] == c0[o..][1..];
  }

  lemma PocketLabel(c0: Code, o: nat, c: Code, i: nat)
    requires Neat(c0) && Steady(c0, o, c, i) && i < |c| && c[i].L?
    ensures Pocket(c0, o + 1, c, i + 1)
  {
    Basics(c0, o, c, i);
    Ahead(c0, o, c, i, i);
    assert Prev(c, i + 1) == Prev(c, i) && Next(c, i + 1) == Next(c, i);
    FindOnly(c, c[i].l, i);
    FindOnly(c0, c[i].l, o);
    var p := Prev(c, i);
    if p.Some? && IsBranch(c, p.value) && IsJump(c, Next(c, i)) {
      assert Pocket(c0, o, c, i) by { hide Sealed, Once, FirmStays, JumpsFirm, BranchesLed, Seam, Pocket; }
      var op: nat :| Held(c0, o, c, i, p.value, op);
      hide Neat, Steady, Sealed, Firm, Find, Dest, Next, Prev, FirmStays;
      HeldLabel(c0, o, c, i, p.value, op);
    }
  }

  lemma HeldLabel(c0: Code, o: nat, c: Code, i: nat, p: nat, op: nat)
    requires i < |c| && IsBranch(c, p) && Held(c0, o, c, i, p, op) && o < |c0| && c[i] == c0[o] && c[i].L?
    requires Once(c) && Once(c0) && Find(c, c[i].l) == i && Find(c0, c[i].l) == o && Next(c, i + 1) == Next(c, i)
    requires p < i
    ensures Held(c0, o + 1, c, i + 1, p, op)
  {
    hide Firm, Find, Dest, Next, Once;
    forall l: nat ensures p < Find(c, l) < i + 1 <==> op < Find(c0, l) < o + 1 {
      FoundAt(c, l, i);
      FoundAt(c0, l, o);
    }
  }

  lemma FoundAt(c: Code, l: nat, q: nat)
    requires q < |c| && c[q].L?
    ensures Find(c, l) == q ==> l == c[q].l
  {
    FindPlaced(c, l);
  }

  /** What is done stays done. */
  lemma DoneStays(c0: Code, c: Code, c': Code, i: nat)
    requires i <= |c| && i <= |c'| && c'[..i] == c[..i] && FirmStays(c, c')
    requires JumpsFirm(c, i) && BranchesLed(c0, c, i)
    ensures JumpsFirm(c', i) && BranchesLed(c0, c', i)
  {
    hide Firm, LandedTo;
    assert forall q: nat :: q < i ==> c'[q] == c'[..i][q] == c[..i][q] == c[q];
  }

  lemma NextDone(c0: Code, c: Code, i: nat)
    requires i < |c| && JumpsFirm(c, i) && BranchesLed(c0, c, i)
    requires IsJump(c, i) ==> Firm(c, c[i].insn.l)
    requires IsBranch(c, i) ==> Firm(c, Target(c[i].insn).value) || LandedTo(c0, Target(c[i].insn).value)
    ensures JumpsFirm(c, i + 1) && BranchesLed(c0, c, i + 1)
  {
    hide Firm, LandedTo;
  }

  lemma FirmThrough(c0: Code, c: Code, c': Code)
    requires FirmStays(c0, c) && FirmStays(c, c')
    ensures FirmStays(c0, c')
  {
    hide Firm;
  }

  lemma Parts(c0: Code, o: nat, c: Code, i: nat)
    requires Steady(c0, o, c, i)
    ensures JumpsFirm(c, i) && BranchesLed(c0, c, i) && Seam(c0, o, c, i) && Pocket(c0, o, c, i)
  {
    hide Sealed, Once, FirmStays, JumpsFirm, BranchesLed, Seam, Pocket;
  }

  lemma OneOff(c0: Code, o: nat, c: Code, i: nat)
    requires i < |c| && o < |c0| && c[i..] == c0[o..]
    ensures c[i + 1..] == c0[o + 1..]
  {
    assert c[i + 1..] == c[i..][1..] && c0[o + 1..] == c0[o..][1..];
  }

  /** After the call on a branch. */
  lemma StepBranch(c0: Code, o: nat, c: Code, i: nat)
    requires Neat(c0) && Steady(c0, o, c, i) && IsBranch(c, i)
    ensures Called(c, i).1 == Kept && Steady(c0, o + 1, Called(c, i).0, i + 1)
  {
    var c' := Called(c, i).0;
    Basics(c0, o, c, i);
    Parts(c0, o, c, i);
    Ahead(c0, o, c, i, i);
    BranchCalled(c0, o, c, i);
    CalledSealed(c, i);
    OneOff(c0, o, c, i);
    hide Called, Neat, Sealed, Firm, LandedTo, Dest, Find, Pocket, Once, FirmStays, JumpsFirm, BranchesLed;
    var e := c'[i];
    FirmUpdate(c, i, e);
    FirmThrough(c0, c, c');
    OnceUpdate(c, i, e);
    PocketOpens(c0, o, c, i, c');
    DoneStays(c0, c, c', i);
    FirmBoth(c, c', Target(e.insn).value);
    NextDone(c0, c', i);
    assert c'[i + 1..] == c[i + 1..];
  }

  lemma FirmBoth(c: Code, c': Code, l: nat)
    requires FirmStays(c, c')
    ensures Firm(c, l) ==> Firm(c', l)
  {
    hide Firm;
  }

  /** Where the branch leads now. */
  lemma BranchCalled(c0: Code, o: nat, c: Code, i: nat)
    requires Neat(c0) && Steady(c0, o, c, i) && IsBranch(c, i)
    ensures var c', t0 := Called(c, i).0, Target(c[i].insn).value;
            && Called(c, i).1 == Kept && |c'| == |c| && IsBranch(c', i) && c' == c[i := c'[i]]
            && var t := Target(c'[i].insn).value;
               && (Firm(c, t) || LandedTo(c0, t))
               && ((Firm(c, t) && (t == t0 || Find(c0, t0) < o))
                   || (o < Find(c0, t0) && IsJump(c0, Dest(c0, t0)) && t == c0[Dest(c0, t0)].insn.l
                       && o < Dest(c0, t0)))
  {
    hide Neat, Steady, Find, Dest, Next;
    var t0 := Target(c[i].insn).value;
    var d := Dest(c, t0);
    Basics(c0, o, c, i);
    Ahead(c0, o, c, i, i);
    BranchPlaced(c, i);
    BranchPlaced(c0, o);
    SealedDest(c, t0);
    DestBehind(c, t0, i);
    if IsJump(c, d) {
      if d < i {
        DoneFirm(c0, o, c, i, d);
        LabelBehind(c0, o, c, i, t0);
      } else {
        LabelAhead(c0, o, c, i, t0);
        Ahead(c0, o, c, i, d);
        Landing(c0, t0);
        assert Landed(c0, Dest(c0, t0));
      }
    }
  }

  /** A branch opens a pocket. */
  lemma PocketOpens(c0: Code, o: nat, c: Code, i: nat, c': Code)
    requires o < |c0| && i < |c| && c0[o] == c[i] && IsBranch(c, i) && |c'| == |c| && c' == c[i := c'[i]]
    requires IsBranch(c', i)
    requires FirmStays(c, c')
    requires var t, t0 := Target(c'[i].insn).value, Target(c[i].insn).value;
             || (Firm(c, t) && (t == t0 || Find(c0, t0) < o))
             || (o < Find(c0, t0) && IsJump(c0, Dest(c0, t0)) && t == c0[Dest(c0, t0)].insn.l && o < Dest(c0, t0))
    ensures Pocket(c0, o + 1, c', i + 1)
  {
    assert Prev(c', i + 1) == Some(i);
    hide Firm, Find, Dest, Next, Prev;
    assert Held(c0, o + 1, c', i + 1, i, o);
  }

  /** After a call that keeps a jump. */
  lemma StepKept(c0: Code, o: nat, c: Code, i: nat)
    requires Neat(c0) && Steady(c0, o, c, i) && IsJump(c, i) && Called(c, i).1 == Kept
    ensures Steady(c0, o + 1, Called(c, i).0, i + 1)
  {
    var c' := Called(c, i).0;
    Basics(c0, o, c, i);
    Parts(c0, o, c, i);
    Ahead(c0, o, c, i, i);
    CallEnds(c0, o, c, i);
    CalledIs(c, i);
    CalledSealed(c, i);
    OneOff(c0, o, c, i);
    var r := Settle(c, i, c[i].insn.l, |c| + 1);
    hide Called, Neat, Sealed, Firm, LandedTo, Dest, Find, Once, FirmStays, JumpsFirm, BranchesLed, Settle;
    FirmUpdate(c, i, I(Jump(r)));
    FirmThrough(c0, c, c');
    OnceUpdate(c, i, I(Jump(r)));
    DoneStays(c0, c, c', i);
    FirmBoth(c, c', r);
    NextDone(c0, c', i);
    NoPocket(c0, o + 1, c', i + 1);
    hide Pocket;
    assert c'[i + 1..] == c[i + 1..];
  }

  /** After a call that replaces a jump by leave. */
  lemma StepLeft(c0: Code, o: nat, c: Code, i: nat)
    requires Neat(c0) && Steady(c0, o, c, i) && IsJump(c, i) && Called(c, i).1 == Left
    ensures Steady(c0, o + 1, Called(c, i).0, i + 2)
  {
    hide Called, Neat, Sealed, Firm, LandedTo, Dest, Find, Next, Once, FirmStays, JumpsFirm, BranchesLed, Settle,
         Leaving;
    var c' := Called(c, i).0;
    Basics(c0, o, c, i);
    Parts(c0, o, c, i);
    Ahead(c0, o, c, i, i);
    CalledIs(c, i);
    CalledSealed(c, i);
    OneOff(c0, o, c, i);
    LeavingParts(c, i);
    FirmLeaving(c, i);
    FirmThrough(c0, c, c');
    OnceLeaving(c, i);
    DoneStays(c0, c, c', i);
    NextDone(c0, c', i);
    NextDone(c0, c', i + 1);
    NoPocket(c0, o + 1, c', i + 2);
    hide Pocket;
  }

  lemma LeavingParts(c: Code, i: nat)
    requires i < |c|
    ensures var c' := Leaving(c, i);
            && |c'| == |c| + 1 && c'[i] == I(Leave) && c'[i + 1] == I(Pop)
            && c'[i + 2..] == c[i + 1..] && c'[..i] == c[..i]
  {
  }

  /** After a call that drops a jump. */
  lemma StepRemoved(c0: Code, o: nat, c: Code, i: nat)
    requires Neat(c0) && Steady(c0, o, c, i) && IsJump(c, i) && Called(c, i).1 == Removed
    ensures Steady(c0, o + 1, Called(c, i).0, i)
  {
    var c' := Called(c, i).0;
    Basics(c0, o, c, i);
    Parts(c0, o, c, i);
    Ahead(c0, o, c, i, i);
    CalledIs(c, i);
    CalledSealed(c, i);
    OneOff(c0, o, c, i);
    assert c'[i..] == c[i + 1..] && c'[..i] == c[..i];
    PocketRemoved(c0, o, c, i);
    hide Called, Neat, Sealed, Firm, LandedTo, Dest, Find, Once, FirmStays, JumpsFirm, BranchesLed, Settle, Remove,
         Pocket;
    FirmRemove(c, i);
    FirmThrough(c0, c, c');
    OnceRemove(c, i);
    DoneStays(c0, c, c', i);
    assert 0 < i ==> c'[i - 1] == c'[..i][i - 1] == c[..i][i - 1] == c[i - 1];
  }

  lemma {:induction false} PrevSame(c: Code, c': Code, i: nat)
    requires i <= |c| && i <= |c'| && c'[..i] == c[..i]
    ensures Prev(c', i) == Prev(c, i)
    decreases i
  {
    if i > 0 {
      assert c'[i - 1] == c'[..i][i - 1] == c[..i][i - 1] == c[i - 1];
      assert c'[..i - 1] == c'[..i][..i - 1] == c[..i][..i - 1] == c[..i - 1];
      PrevSame(c, c', i - 1);
    }
  }

  /** The pocket stays, one jump shorter. */
  lemma PocketRemoved(c0: Code, o: nat, c: Code, i: nat)
    requires Neat(c0) && Steady(c0, o, c, i) && IsJump(c, i) && Called(c, i).1 == Removed
    ensures Pocket(c0, o + 1, Remove(c, i), i)
  {
    var c' := Remove(c, i);
    assert c'[..i] == c[..i];
    PrevSame(c, c', i);
    hide Neat, Steady, Firm, Find, Dest, Next, Prev, Called, Held;
    var p := Prev(c, i);
    if p.Some? && IsBranch(c, p.value) && IsJump(c', Next(c', i)) {
      assert c'[p.value] == c[p.value];
      var op := HeldAt(c0, o, c, i);
      HeldRemoved(c0, o, c, i, p.value, op);
    }
  }

  lemma HeldRemoved(c0: Code, o: nat, c: Code, i: nat, p: nat, op: nat)
    requires Neat(c0) && Steady(c0, o, c, i) && IsJump(c, i) && Called(c, i).1 == Removed
    requires p < i && IsBranch(c, p) && Held(c0, o, c, i, p, op)
    requires IsJump(Remove(c, i), Next(Remove(c, i), i))
    ensures IsBranch(Remove(c, i), p) && Held(c0, o + 1, Remove(c, i), i, p, op)
  {
    var c' := Remove(c, i);
    var t, t0 := Target(c[p].insn).value, Target(c0[op].insn).value;
    assert c'[p] == c[p];
    Basics(c0, o, c, i);
    Ahead(c0, o, c, i, i);
    BranchPlaced(c, p);
    BranchPlaced(c0, op);
    LedRemoved(c0, o, c, i, t, op, t0);
    hide Neat, Steady, Firm, Find, Dest, Next, Called, Led, Remove, Sealed, Once, FirmStays;
    forall l: nat ensures p < Find(c', l) < i <==> op < Find(c0, l) < o + 1 {
      FindRemove(c, i, l);
      FindPlaced(c0, l);
    }
  }

  /** Where the branch in front leads is still known. */
  lemma LedRemoved(c0: Code, o: nat, c: Code, i: nat, t: nat, op: nat, t0: nat)
    requires Neat(c0) && Steady(c0, o, c, i) && IsJump(c, i) && Called(c, i).1 == Removed
    requires Led(c0, o, c, i, t, op, t0) && Find(c, t) < |c| && Find(c0, t0) < |c0|
    requires IsJump(Remove(c, i), Next(Remove(c, i), i))
    ensures Led(c0, o + 1, Remove(c, i), i, t, op, t0)
  {
    hide Neat, Steady, Firm, Find, Dest, Called, Sealed, Once, FirmStays, Settle, Next, Prev;
    var c' := Remove(c, i);
    FirmRemove(c, i);
    FirmBoth(c, c', t);
    NextHere(c, i);
    FindRemove(c, i, t);
    RemovedNext(c, i);
    assert i <= Next(c', i);
    if !(Firm(c, t) && (t == t0 || Find(c0, t0) < op)) && Dest(c0, t0) == o {
      Ahead(c0, o, c, i, i) by { Basics(c0, o, c, i); }
      LedThrough(c0, o, c, i, t, t0);
    }
  }

  /** A jump that is dropped and that the branch in front was led on through leads right behind itself. */
  lemma LedThrough(c0: Code, o: nat, c: Code, i: nat, t: nat, t0: nat)
    requires Neat(c0) && Steady(c0, o, c, i) && IsJump(c, i) && Called(c, i).1 == Removed
    requires Find(c, t) < |c| && Find(c0, t0) < |c0| && Dest(c0, t0) == o && t == c0[o].insn.l && IsJump(c0, o)
    requires IsJump(c, Next(c, i + 1))
    ensures i < Find(c, t) < Next(c, i + 1)
  {
    var r, x := Settle(c, i, c[i].insn.l, |c| + 1), Next(c, i + 1);
    Basics(c0, o, c, i);
    Ahead(c0, o, c, i, i);
    CalledIs(c, i);
    CallEnds(c0, o, c, i);
    Landing(c0, t0);
    LandedForward(c0, o);
    FirmBoth(c0, c, t);
    hide Neat, Steady, Find, Dest, Next, Called, Settle, FirmStays, Once;
    assert Dest(c, r) == x && !Firm(c, r);
    FirmSettled(c, i, t, |c| + 1);
    JumpPlaced(c0, o);
    assert Find(c0, t) > o;
    LabelAhead(c0, o, c, i, t);
    Landing(c, t);
    SealedDest(c, t);
    BetweenLabels(c, i, Dest(c, t));
    assert r == t;
  }

  lemma FirmSettled(c: Code, i: nat, l: nat, k: nat)
    requires i < |c|
    ensures Firm(c, l) ==> Settle(c, i, l, k) == l
  {
    hide Dest, Next;
  }

  lemma RemovedNext(c: Code, i: nat)
    requires i < |c| && !c[i].L?
    ensures Next(Remove(c, i), i) + 1 == Next(c, i + 1)
    ensures Next(c, i + 1) < |c| ==>
            Next(Remove(c, i), i) < |c| - 1 && Remove(c, i)[Next(Remove(c, i), i)] == c[Next(c, i + 1)]
  {
    RemoveNext(c, i, i);
    hide Next;
  }

  /** After a call that merges a jump with the branch in front: what follows is no jump. */
  lemma StepInverted(c0: Code, o: nat, c: Code, i: nat)
    requires Neat(c0) && Steady(c0, o, c, i) && IsJump(c, i) && Called(c, i).1 == Inverted
    ensures Unjumped(c, i) && Steady(c0, o + 1, Called(c, i).0, i)
  {
    hide Called, Neat, Steady, Sealed, Firm, LandedTo, Dest, Find, Once, FirmStays, JumpsFirm, BranchesLed, Settle;
    hide Unjumped, Pocket, Next, Prev;
    Basics(c0, o, c, i);
    CalledIs(c, i);
    var c', p, r := Called(c, i).0, Prev(c, i).value, Settle(c, i, c[i].insn.l, |c| + 1);
    Parts(c0, o, c, i);
    Ahead(c0, o, c, i, i);
    CallEnds(c0, o, c, i);
    CalledSealed(c, i);
    OneOff(c0, o, c, i);
    MergingSafe(c0, o, c, i);
    var e := I(Opposite(c[p].insn, r));
    var cf := c[p := e];
    FirmUpdate(c, p, e);
    FirmRemove(cf, i);
    FirmThrough(c, cf, c');
    FirmThrough(c0, c, c');
    OnceUpdate(c, p, e);
    OnceRemove(cf, i);
    FirmBoth(c, c', r);
    assert c'[i..] == c[i + 1..] && c'[..i] == c[..i][p := e];
    MergedDone(c0, c, c', i, p, r);
    MergedPocket(c0, o + 1, c, c', i, p, r);
    SteadyIs(c0, o + 1, c', i);
  }

  lemma SteadyIs(c0: Code, o: nat, c: Code, i: nat)
    requires o <= |c0| && i <= |c| && c[i..] == c0[o..] && Sealed(c) && Once(c) && FirmStays(c0, c)
    requires JumpsFirm(c, i) && BranchesLed(c0, c, i) && Seam(c0, o, c, i) && Pocket(c0, o, c, i)
    ensures Steady(c0, o, c, i)
  {
  }

  lemma MergedDone(c0: Code, c: Code, c': Code, i: nat, p: nat, l: nat)
    requires p < i <= |c| && i <= |c'| && IsBranch(c, p) && c'[..i] == c[..i][p := I(Opposite(c[p].insn, l))]
    requires FirmStays(c, c') && Firm(c', l) && JumpsFirm(c, i) && BranchesLed(c0, c, i)
    ensures JumpsFirm(c', i) && BranchesLed(c0, c', i)
  {
    hide Firm, LandedTo;
    assert c'[p] == c'[..i][p];
    forall q: nat | q < i && q != p ensures c'[q] == c[q] { assert c'[q] == c'[..i][q] == c[..i][q]; }
  }

  lemma MergedPocket(c0: Code, o: nat, c: Code, c': Code, i: nat, p: nat, l: nat)
    requires IsJump(c, i) && p < i && IsBranch(c, p) && c' == Remove(c[p := I(Opposite(c[p].insn, l))], i)
    requires !IsJump(c, Next(c, i + 1))
    ensures Pocket(c0, o, c', i)
  {
    var cf := c[p := I(Opposite(c[p].insn, l))];
    UpdateKeeps(c, p, cf[p], i + 1, 0);
    RemovedNext(cf, i);
    hide Next, Prev, Held;
    assert !IsJump(c', Next(c', i));
  }

  // ----- the whole pass -----

  /** From a steady state on every retry ends and every merged jump is one nothing else leads to. */
  lemma {:induction false} NeatFrom(c0: Code, o: nat, c: Code, i: nat)
    requires Neat(c0) && Steady(c0, o, c, i)
    ensures i <= |c| && AllEnd(c, i) && Clean(c, i)
    decreases |c0| - o
  {
    Basics(c0, o, c, i);
    hide Neat, Steady, Called, Unjumped, RetryEnds, IsJump, IsBranch;
    if i < |c| {
      CalledSize(c, i);
      assert |c| - i == |c[i..]| == |c0[o..]| == |c0| - o;
      if IsJump(c, i) {
        CallEnds(c0, o, c, i);
        match Called(c, i).1 {
          case Kept => StepKept(c0, o, c, i);
          case Removed => StepRemoved(c0, o, c, i);
          case Left => StepLeft(c0, o, c, i);
          case Inverted => StepInverted(c0, o, c, i);
        }
        var (c1, kind) := Called(c, i);
        NeatFrom(c0, o + 1, c1, Behind(i, kind));
        assert c[i].I? by { JumpIs(c, i); }
      } else if IsBranch(c, i) {
        StepBranch(c0, o, c, i);
        NotRetried(c, i);
        NeatFrom(c0, o + 1, Called(c, i).0, i + 1);
        assert c[i].I? by { BranchIs(c, i); }
      } else {
        PlainIs(c, i);
        if c[i].L? { StepLabel(c0, o, c, i); } else { StepPlain(c0, o, c, i); }
        NeatFrom(c0, o + 1, c, i + 1);
      }
    }
  }

  lemma JumpIs(c: Code, i: nat)
    requires IsJump(c, i)
    ensures c[i].I?
  {
  }

  lemma BranchIs(c: Code, i: nat)
    requires IsBranch(c, i)
    ensures c[i].I?
  {
  }

  lemma NotRetried(c: Code, i: nat)
    requires i < |c| && !IsJump(c, i)
    ensures RetryEnds(c, i)
  {
  }

  lemma PlainIs(c: Code, i: nat)
    requires i < |c| && !IsJump(c, i) && !IsBranch(c, i)
    ensures Called(c, i) == (c, Kept) && RetryEnds(c, i)
  {
  }

  /** On a neat list iseq_optimize returns, and merges no jump that something else leads to. */
  lemma NeatPass(c: Code)
    requires Neat(c)
    ensures AllEnd(c, 0) && Clean(c, 0)
  {
    assert Steady(c, 0, c, 0) by { hide Neat, Firm; }
    NeatFrom(c, 0, c, 0);
  }
}
