/** The optimiser's list surgery on the linked cells: it does what the rewrites of a sequence say, and on a
    list that ends in leave it never leaves the pointer to the last cell behind. Leading a jump on or
    inverting a branch assigns inside a cell and moves none. */
module LinkedRewrites {
  import opened Lowering
  import opened LinkList
  import opened Peephole
  import opened PeepholeStep
  import opened OptimizePass

  /** The cell of a jump is not the last one. */
  lemma JumpInside(list: List, k: nat)
    requires list.Valid() && 0 < k < |list.cells| && Sealed(list.Contents()) && IsJump(list.Contents(), k - 1)
    ensures k < |list.cells| - 1 && list.cells[k] != list.last
  {
    NotLast(list.Contents(), k - 1);
    ApartAt(list.cells, k);
  }

  /** REMOVE_ELEM of a jump. */
  method DropJump(list: List, a: Cell, ghost k: nat)
    requires list.Valid() && 0 < k < |list.cells| && list.cells[k] == a
    requires Sealed(list.Contents()) && IsJump(list.Contents(), k - 1)
    modifies list`cells, list.cells`prev, list.cells`next
    ensures list.Valid() && list.Contents() == Remove(old(list.Contents()), k - 1)
  {
    hide Sealed, Elems, Linked, Apart;
    JumpInside(list, k);
    list.Remove(a, k);
  }

  lemma LeavingInSteps(c: Code, i: nat)
    requires i < |c|
    ensures var c1 := c[i := I(Leave)]; c1[..i + 1] + [I(Pop)] + c1[i + 1..] == Leaving(c, i)
  {
  }

  /** REPLACE_ELEM of a jump by leave and INSERT_ELEM_NEXT of a pop behind it. */
  method LeaveInstead(list: List, a: Cell, ghost k: nat) returns (pop: Cell)
    requires list.Valid() && 0 < k < |list.cells| && list.cells[k] == a
    requires Sealed(list.Contents()) && IsJump(list.Contents(), k - 1)
    modifies list`cells, list.cells`prev, list.cells`next
    ensures list.Valid() && list.Contents() == Leaving(old(list.Contents()), k - 1)
    ensures fresh(pop) && list.cells[k + 1] == pop
  {
    hide Sealed, Elems, Linked, Apart, Leaving, Inserted;
    JumpInside(list, k);
    var leave := new Cell(I(Leave));
    pop := new Cell(I(Pop));
    list.Replace(a, leave, k);
    list.InsertNext(leave, pop, k);
    InsertedAt(old(list.cells)[k := leave], k, pop, k + 1);
    LeavingInSteps(old(list.Contents()), k - 1);
  }
}
