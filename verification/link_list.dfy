/** The doubly linked list of compile.c: an anchor that is itself a cell, and a pointer to the last
    cell. What the primitives do to the elements, and which of them can leave that pointer behind. */
module LinkList {
  import opened Lowering

  class Cell {
    const elem: Elem
    var prev: Cell?
    var next: Cell?

    constructor (e: Elem)
      ensures elem == e && prev == null && next == null
    {
      elem, prev, next := e, null, null;
    }
  }

  ghost predicate Apart(cells: seq<Cell>) {
    forall i, j :: 0 <= i < j < |cells| ==> cells[i] != cells[j]
  }

  /** What is in front of cell i, and what is behind it. */
  ghost function Before(cells: seq<Cell>, i: int): Cell? {
    if 0 < i <= |cells| then cells[i - 1] else null
  }

  ghost function Behind(cells: seq<Cell>, i: int): Cell? {
    if 0 <= i < |cells| - 1 then cells[i + 1] else null
  }

  /** Neighbours point to each other; nothing is in front of the first cell, the anchor, nor behind the
      last. */
  ghost predicate Linked(cells: seq<Cell>)
    reads cells`prev, cells`next
  {
    forall i :: 0 <= i < |cells| ==> cells[i].prev == Before(cells, i) && cells[i].next == Behind(cells, i)
  }

  /** The elements, without the anchor. */
  function Elems(cells: seq<Cell>): (r: Code)
    ensures |r| == if cells == [] then 0 else |cells| - 1
    decreases |cells|
  {
    if |cells| <= 1 then [] else Elems(cells[..|cells| - 1]) + [cells[|cells| - 1].elem]
  }

  lemma {:induction false} ElemsAt(cells: seq<Cell>)
    requires cells != []
    ensures forall i :: 0 < i < |cells| ==> Elems(cells)[i - 1] == cells[i].elem
    decreases |cells|
  {
    if |cells| > 1 { ElemsAt(cells[..|cells| - 1]); }
  }

  lemma ApartAt(cells: seq<Cell>, k: int)
    requires Apart(cells)
    ensures 0 <= k < |cells| ==> forall i :: 0 <= i < |cells| && i != k ==> cells[i] != cells[k]
  {
  }

  function Inserted(cells: seq<Cell>, k: nat, b: Cell): seq<Cell>
    requires k < |cells|
  {
    cells[..k + 1] + [b] + cells[k + 1..]
  }

  function Without(cells: seq<Cell>, k: nat): seq<Cell>
    requires k < |cells|
  {
    cells[..k] + cells[k + 1..]
  }

  lemma InsertedIs(cells: seq<Cell>, k: nat, b: Cell)
    requires Apart(cells) && k < |cells| && b !in cells
    ensures var r := Inserted(cells, k, b);
            Apart(r) && |r| == |cells| + 1 && Elems(r) == Elems(cells)[..k] + [b.elem] + Elems(cells)[k..]
  {
    ElemsAt(cells);
    ElemsAt(Inserted(cells, k, b));
    var r, e, e' := Inserted(cells, k, b), Elems(cells), Elems(Inserted(cells, k, b));
    forall i | 0 <= i < |e'| ensures e'[i] == (e[..k] + [b.elem] + e[k..])[i] {
      assert e'[i] == r[i + 1].elem;
    }
  }

  lemma AtEnd(cells: seq<Cell>, c: Cell)
    requires cells != []
    ensures Inserted(cells, |cells| - 1, c) == cells + [c]
  {
    var front, none := cells[..|cells|], cells[|cells|..];
    assert front == cells && none == [];
  }

  lemma ElemsSnoc(cells: seq<Cell>, c: Cell)
    requires cells != []
    ensures Elems(cells + [c]) == Elems(cells) + [c.elem]
  {
    var both := cells + [c];
    assert |both| == |cells| + 1 > 1 && both[|both| - 1] == c;
    assert both[..|both| - 1] == cells;
  }

  lemma BothIs(a: seq<Cell>, b: seq<Cell>)
    requires a != [] && b != [] && Apart(a) && Apart(b) && forall c :: c in a ==> c !in b
    ensures var r := a + b[1..]; Apart(r) && Elems(r) == Elems(a) + Elems(b)
  {
    var r := a + b[1..];
    assert forall i :: 0 <= i < |r| ==> r[i] == if i < |a| then a[i] else b[i - |a| + 1];
    forall i, j | 0 <= i < j < |r| ensures r[i] != r[j] {
      if i < |a| <= j { assert r[i] in a && r[j] in b; }
    }
    ElemsAt(a);
    ElemsAt(b);
    ElemsAt(r);
    forall i | 0 <= i < |Elems(r)| ensures Elems(r)[i] == (Elems(a) + Elems(b))[i] {
      assert Elems(r)[i] == r[i + 1].elem;
    }
  }

  lemma InsertedAt(cells: seq<Cell>, k: nat, b: Cell, i: nat)
    requires k < |cells| && i < |cells| + 1
    ensures |Inserted(cells, k, b)| == |cells| + 1
    ensures Inserted(cells, k, b)[i] == if i <= k then cells[i] else if i == k + 1 then b else cells[i - 1]
  {
  }

  lemma WithoutAt(cells: seq<Cell>, k: nat, i: nat)
    requires k < |cells| && i < |cells| - 1
    ensures |Without(cells, k)| == |cells| - 1
    ensures Without(cells, k)[i] == if i < k then cells[i] else cells[i + 1]
  {
  }

  lemma WithoutIs(cells: seq<Cell>, k: nat)
    requires Apart(cells) && 0 < k < |cells|
    ensures var r := Without(cells, k);
            Apart(r) && |r| == |cells| - 1 && Elems(r) == Elems(cells)[..k - 1] + Elems(cells)[k..]
  {
    ElemsAt(cells);
    ElemsAt(Without(cells, k));
    var r, e, e' := Without(cells, k), Elems(cells), Elems(Without(cells, k));
    forall i | 0 <= i < |e'| ensures e'[i] == (e[..k - 1] + e[k..])[i] {
      assert e'[i] == r[i + 1].elem;
    }
  }

  lemma ReplacedIs(cells: seq<Cell>, k: nat, b: Cell)
    requires Apart(cells) && 0 < k < |cells| && b !in cells
    ensures var r := cells[k := b]; Apart(r) && Elems(r) == Elems(cells)[k - 1 := b.elem]
  {
    ElemsAt(cells);
    ElemsAt(cells[k := b]);
    var r, e, e' := cells[k := b], Elems(cells), Elems(cells[k := b]);
    forall i | 0 <= i < |e'| ensures e'[i] == e[k - 1 := b.elem][i] {
      assert e'[i] == r[i + 1].elem;
    }
  }

  lemma ElemsPop(cells: seq<Cell>)
    requires |cells| > 1 && Apart(cells)
    ensures var n := |cells| - 1; Apart(cells[..n]) && Elems(cells[..n]) == Elems(cells)[..n - 1]
  {
  }

  // ----- the pointers -----

  method LinkNext(a: Cell, b: Cell, ghost cs: seq<Cell>, ghost k: nat)
    requires Linked(cs) && Apart(cs) && k < |cs| && cs[k] == a && b !in cs
    modifies cs`prev, cs`next, b`prev, b`next
    ensures Linked(Inserted(cs, k, b))
  {
    hide Apart, Inserted;
    ApartAt(cs, k);
    ApartAt(cs, k + 1);
    assert a.next == Behind(cs, k);
    assert forall j :: 0 <= j < |cs| ==> cs[j] != b;
    b.next := a.next;
    b.prev := a;
    a.next := b;
    if b.next != null {
      b.next.prev := b;
    }
    assert forall j :: 0 <= j < |cs| ==>
      && cs[j].prev == (if j == k + 1 then b else Before(cs, j))
      && cs[j].next == (if j == k then b else Behind(cs, j));
    hide Linked, Before, Behind;
    NextLinks(cs, k, b);
  }

  lemma NextLinks(cs: seq<Cell>, k: nat, b: Cell)
    requires k < |cs| && b.next == Behind(cs, k) && b.prev == cs[k]
    requires forall j :: 0 <= j < |cs| ==>
               && cs[j].prev == (if j == k + 1 then b else Before(cs, j))
               && cs[j].next == (if j == k then b else Behind(cs, j))
    ensures Linked(Inserted(cs, k, b))
  {
    hide Linked, Inserted;
    var r := Inserted(cs, k, b);
    InsertedAt(cs, k, b, 0);
    forall i | 0 <= i < |r| ensures r[i].prev == Before(r, i) && r[i].next == Behind(r, i) {
      InsertedAt(cs, k, b, i);
      if i > 0 { InsertedAt(cs, k, b, i - 1); }
      if i + 1 < |r| { InsertedAt(cs, k, b, i + 1); }
    }
    LinkedIs(r);
  }

  lemma LinkedIs(r: seq<Cell>)
    requires forall i :: 0 <= i < |r| ==> r[i].prev == Before(r, i) && r[i].next == Behind(r, i)
    ensures Linked(r)
  {
  }

  method LinkInstead(a: Cell, b: Cell, ghost cs: seq<Cell>, ghost k: nat)
    requires Linked(cs) && Apart(cs) && 0 < k < |cs| && cs[k] == a && b !in cs
    modifies cs`prev, cs`next, b`prev, b`next
    ensures Linked(cs[k := b])
  {
    hide Apart;
    ApartAt(cs, k - 1);
    ApartAt(cs, k);
    ApartAt(cs, k + 1);
    assert a.prev == Before(cs, k) && a.next == Behind(cs, k);
    b.prev := a.prev;
    b.next := a.next;
    if a.prev != null {
      a.prev.next := b;
    }
    if a.next != null {
      a.next.prev := b;
    }
  }

  method LinkPast(a: Cell, ghost cs: seq<Cell>, ghost k: nat)
    requires Linked(cs) && Apart(cs) && 0 < k < |cs| && cs[k] == a
    modifies cs`prev, cs`next
    ensures Linked(Without(cs, k))
  {
    hide Apart, Without;
    ApartAt(cs, k - 1);
    ApartAt(cs, k);
    ApartAt(cs, k + 1);
    assert a.prev == Before(cs, k) && a.next == Behind(cs, k);
    a.prev.next := a.next;
    if a.next != null {
      a.next.prev := a.prev;
    }
    ghost var r := Without(cs, k);
    WithoutLength(cs, k);
    forall i | 0 <= i < |r| ensures r[i].prev == Before(r, i) && r[i].next == Behind(r, i) {
      WithoutAt(cs, k, i);
      if i > 0 { WithoutAt(cs, k, i - 1); }
      if i + 1 < |r| { WithoutAt(cs, k, i + 1); }
    }
  }

  lemma WithoutLength(cells: seq<Cell>, k: nat)
    requires k < |cells|
    ensures |Without(cells, k)| == |cells| - 1
  {
  }

  method LinkOn(a: Cell, b: Cell, ghost cs: seq<Cell>, ghost ds: seq<Cell>)
    requires Linked(cs) && Linked(ds) && Apart(cs) && Apart(ds) && (forall c :: c in cs ==> c !in ds)
    requires cs != [] && |ds| > 1 && a == cs[|cs| - 1] && b == ds[1]
    modifies a`next, b`prev
    ensures Linked(cs + ds[1..])
  {
    hide Apart;
    ApartAt(cs, |cs| - 1);
    ApartAt(ds, 1);
    ghost var n, both := |cs|, cs + ds[1..];
    assert a in cs && b in ds;
    a.next := b;
    b.prev := a;
    forall i | 0 <= i < |both| ensures both[i].prev == Before(both, i) && both[i].next == Behind(both, i) {
      if i < n {
        assert both[i] == cs[i] && cs[i] in cs && cs[i] != b;
      } else {
        assert both[i] == ds[i - n + 1] && ds[i - n + 1] in ds && ds[i - n + 1] != a;
      }
    }
  }

  /** LINK_ANCHOR */
  class List {
    const anchor: Cell
    var last: Cell
    /** The anchor and the cells linked behind it. */
    ghost var cells: seq<Cell>

    /** The links are in order, whatever last points to. */
    ghost predicate InOrder()
      reads this, cells`prev, cells`next
    {
      cells != [] && cells[0] == anchor && Apart(cells) && Linked(cells)
    }

    /** What verify_list checks. */
    ghost predicate Valid()
      reads this, cells`prev, cells`next
    {
      InOrder() && last == cells[|cells| - 1]
    }

    ghost function Contents(): Code
      reads this
    {
      Elems(cells)
    }

    /** INIT_ANCHOR */
    constructor ()
      ensures Valid() && Contents() == [] && fresh(anchor)
    {
      var a := new Cell(L(0));
      anchor, last, cells := a, a, [a];
    }

    /** ADD_ELEM of a new cell. */
    method Add(c: Cell)
      requires Valid() && c !in cells && c.next == null
      modifies this, cells`prev, cells`next, c`prev, c`next
      ensures Valid() && cells == old(cells) + [c] && Contents() == old(Contents()) + [c.elem]
    {
      hide Elems, Linked, Inserted, Apart;
      ghost var n := |cells| - 1;
      InsertedIs(cells, n, c);
      AtEnd(cells, c);
      ElemsSnoc(cells, c);
      LastBare(cells);
      AddLinks(last, c, cells);
      last := c;
      cells := cells + [c];
    }

    /** APPEND_LIST: the cells of the other list, which is broken from then on. */
    method Append(other: List)
      requires Valid() && other.Valid() && forall c :: c in cells ==> c !in other.cells
      modifies this, cells`next, other.cells`prev
      ensures Valid() && cells == old(cells) + old(other.cells)[1..]
      ensures Contents() == old(Contents()) + old(other.Contents())
    {
      hide Elems, Apart;
      ghost var cs, ds := cells, other.cells;
      BothIs(cs, ds);
      if other.anchor.next != null {
        hide Linked;
        FirstIs(ds);
        LinkOn(last, other.anchor.next, cs, ds);
        last := other.last;
      } else {
        assert |ds| == 1;
        assert cs + ds[1..] == cs;
      }
      cells := cs + ds[1..];
    }

    /** INSERT_ELEM_NEXT: the links stay in order; last is left behind exactly at the end. */
    method InsertNext(a: Cell, b: Cell, ghost k: nat)
      requires InOrder() && k < |cells| && cells[k] == a && b !in cells
      modifies this`cells, cells`prev, cells`next, b`prev, b`next
      ensures InOrder() && cells == Inserted(old(cells), k, b)
      ensures Contents() == old(Contents()[..k]) + [b.elem] + old(Contents()[k..])
      ensures last == old(last) && (old(Valid()) ==> (last == cells[|cells| - 1] <==> a != last))
    {
      hide Elems, Linked, Inserted, Apart;
      InsertedIs(cells, k, b);
      InsertedAt(cells, k, b, 0);
      InsertedAt(cells, k, b, |cells|);
      ApartAt(cells, k);
      LinkNext(a, b, cells, k);
      cells := Inserted(cells, k, b);
    }

    /** REPLACE_ELEM: likewise. */
    method Replace(a: Cell, b: Cell, ghost k: nat)
      requires InOrder() && 0 < k < |cells| && cells[k] == a && b !in cells
      modifies this`cells, cells`prev, cells`next, b`prev, b`next
      ensures InOrder() && cells == old(cells)[k := b] && Contents() == old(Contents())[k - 1 := b.elem]
      ensures last == old(last) && (old(Valid()) ==> (last == cells[|cells| - 1] <==> a != last))
    {
      hide Elems, Linked, Apart;
      ReplacedIs(cells, k, b);
      ApartAt(cells, k);
      LinkInstead(a, b, cells, k);
      cells := cells[k := b];
    }

    /** REMOVE_ELEM: likewise. */
    method Remove(a: Cell, ghost k: nat)
      requires InOrder() && 0 < k < |cells| && cells[k] == a
      modifies this`cells, cells`prev, cells`next
      ensures InOrder() && cells == Without(old(cells), k)
      ensures Contents() == old(Contents()[..k - 1]) + old(Contents()[k..])
      ensures last == old(last) && (old(Valid()) ==> (last == cells[|cells| - 1] <==> a != last))
    {
      hide Elems, Linked, Without, Apart;
      WithoutIs(cells, k);
      WithoutAt(cells, k, 0);
      WithoutAt(cells, k, |cells| - 2);
      ApartAt(cells, k);
      LinkPast(a, cells, k);
      cells := Without(cells, k);
    }

    /** POP_ELEMENT */
    method Pop() returns (c: Cell)
      requires Valid() && |cells| > 1
      modifies this, cells`next
      ensures Valid() && c == old(last) && cells == old(cells[..|cells| - 1])
      ensures Contents() == old(Contents())[..|old(Contents())| - 1]
    {
      hide Elems, Apart;
      ElemsPop(cells);
      ApartAt(cells, |cells| - 2);
      c := last;
      last := last.prev;
      last.next := null;
      cells := cells[..|cells| - 1];
    }
  }

  lemma LastBare(cells: seq<Cell>)
    requires Linked(cells) && cells != []
    ensures cells[|cells| - 1].next == null
  {
  }

  lemma FirstIs(cells: seq<Cell>)
    requires Linked(cells) && cells != [] && cells[0].next != null
    ensures |cells| > 1 && cells[0].next == cells[1]
  {
  }

  method AddLinks(a: Cell, c: Cell, ghost cs: seq<Cell>)
    requires Linked(cs) && Apart(cs) && cs != [] && cs[|cs| - 1] == a && c !in cs && c.next == null
    modifies cs`next, c`prev
    ensures Linked(cs + [c])
  {
    hide Apart;
    ghost var n, r := |cs| - 1, cs + [c];
    ApartAt(cs, n);
    c.prev := a;
    a.next := c;
    forall i | 0 <= i < |r| ensures r[i].prev == Before(r, i) && r[i].next == Behind(r, i) {
      if i <= n { assert r[i] == cs[i]; }
    }
  }
}
