/** Following the optimiser and the depths that linking records through a given list. */
module PassSteps {
  import opened Nodes
  import opened Options
  import opened Lowering
  import opened Depths
  import opened Machine
  import opened Linking
  import opened Peephole
  import opened PeepholeStep
  import opened OptimizePass
  import NeatLists

  /** A label placed once leads to what follows the labels behind it. */
  lemma DestAt(c: Code, l: nat, q: nat, d: nat)
    requires NeatLists.Once(c) && q < d < |c| && c[q] == L(l) && !c[d].L? && forall j :: q < j < d ==> c[j].L?
    ensures Find(c, l) == q && Dest(c, l) == d
  {
    hide NeatLists.Once, Dest, Find;
    NeatLists.FindOnly(c, l, q);
    NeatLists.LandingIs(c, l, d);
  }

  /** The pass goes over what is neither a jump nor a branch. */
  lemma {:induction false} Over(c: Code, i: nat, j: nat)
    requires i <= j <= |c| && forall q :: i <= q < j ==> !IsJump(c, q) && !IsBranch(c, q)
    ensures PassFrom(c, i) == PassFrom(c, j)
    decreases j - i
  {
    if i < j {
      hide Called;
      if c[i].I? { NeatLists.PlainIs(c, i); }
      Over(c, i + 1, j);
    }
  }

  /** A branch is led on through a jump, or kept. */
  lemma OnBranch(c: Code, i: nat, c1: Code)
    requires IsBranch(c, i)
    requires var d := Dest(c, Target(c[i].insn).value); c1 == if IsJump(c, d) then Threaded(c, i, c[d].insn.l) else c
    ensures PassFrom(c, i) == PassFrom(c1, i + 1)
  {
    hide Dest;
    CalledSize(c, i);
    assert Called(c, i) == (c1, Kept);
    hide Called;
    assert OptimizePass.Behind(i, Kept) == i + 1;
  }

  /** A jump that is not retried. */
  lemma OnJump(c: Code, i: nat, c1: Code, kind: Rewrite)
    requires IsJump(c, i) && LeadsOn(c, i, c[i].insn.l).None? && LastRound(c, i) == (c1, kind)
    ensures OptimizePass.Behind(i, kind) <= |c1| && PassFrom(c, i) == PassFrom(c1, OptimizePass.Behind(i, kind))
  {
    var l := c[i].insn.l;
    hide LeadsOn, LastRound;
    CalledSize(c, i);
    assert Settle(c, i, l, |c| + 1) == l;
    assert c[i := I(Jump(l))] == c;
    assert Called(c, i) == (c1, kind);
    hide Called;
  }

  lemma AtEnd(c: Code)
    ensures PassFrom(c, |c|) == c
  {
  }

  /** What is recorded behind one element more. */
  lemma OneOn(c: Code, q: nat, r: Rec, e: Elem, r1: Rec)
    requires q < |c| && Depth(c, q) == r && c[q] == e && Record(e, r) == r1
    ensures Depth(c, q + 1) == r1
  {
    hide Depth, Record;
    DepthNext(c, q);
  }
}
