/** iseq_set_sequence: from the element list to a flat array of words, in two passes, and the machine
    that runs the words. */
module Linking {
  import opened Nodes
  import opened Options
  import opened Lowering
  import opened Depths
  import opened Machine

  datatype Opcode =
    | PutNilOp | PutObjectOp | PopOp | DupOp | GetLocalOp | SetLocalOp
    | JumpOp | BranchIfOp | BranchUnlessOp | LeaveOp | AdjustStackOp

  datatype Word = Op(op: Opcode) | Num(n: int) | Object(v: Value)

  // ----- the list as words -----

  /** insn_data_length, and what a label or an adjustment adds in the first pass. */
  function Width(e: Elem): nat {
    match e
    case I(i) => (match i
                  case PutNil => 1
                  case Pop => 1
                  case Dup => 1
                  case Leave => 1
                  case _ => 2)
    case L(_) => 0
    case Adj(_, emits) => if emits then 2 else 0
  }

  /** The word position of element q. */
  function Pos(code: Code, q: nat): nat
    requires q <= |code|
    decreases q
  {
    if q == 0 then 0 else Pos(code, q - 1) + Width(code[q - 1])
  }

  /** The distance from behind a two-word instruction at element q to a label. */
  function Offset(code: Code, q: nat, l: nat): int
    requires q < |code|
  {
    Pos(code, Find(code, l)) - (Pos(code, q) + 2)
  }

  /** The words of element q. */
  function Emit(code: Code, q: nat): seq<Word>
    requires q < |code|
  {
    match code[q]
    case I(i) =>
      if Target(i).Some? then [Op(Branching(i)), Num(Offset(code, q, Target(i).value))] else Plainly(i)
    case L(_) => []
    case Adj(_, emits) =>
      var down := Depth(code, q).sp - Depth(code, q + 1).sp;
      if !emits then [] else if down > 0 then [Op(AdjustStackOp), Num(down)] else [Op(JumpOp), Num(0)]
  }

  function Words(code: Code, q: nat): seq<Word>
    requires q <= |code|
    decreases q
  {
    if q == 0 then [] else Words(code, q - 1) + Emit(code, q - 1)
  }

  lemma {:induction false} WordsLength(code: Code, q: nat)
    requires q <= |code|
    ensures |Words(code, q)| == Pos(code, q)
    decreases q
  {
    hide Depth, Emit, Width;
    if q > 0 {
      WordsLength(code, q - 1);
      EmitWidth(code, q - 1);
    }
  }

  lemma EmitWidth(code: Code, q: nat)
    requires q < |code|
    ensures |Emit(code, q)| == Width(code[q])
  {
    hide Depth, Offset;
  }

  /** Element q's words are where the first pass said. */
  lemma {:induction false} WordsAt(code: Code, q: nat, n: nat)
    requires q < n <= |code|
    ensures Pos(code, q) + Width(code[q]) <= |Words(code, n)|
    ensures Words(code, n)[Pos(code, q)..Pos(code, q) + Width(code[q])] == Emit(code, q)
    decreases n
  {
    hide Depth, Emit, Width;
    WordsLength(code, n - 1);
    EmitWidth(code, n - 1);
    if q < n - 1 { WordsAt(code, q, n - 1); }
  }

  // ----- the two passes -----

  datatype Info = Info(position: nat, sp: int)

  /** The instruction table: for everything that emits words, where they are and the depth behind it. */
  function Table(code: Code, q: nat): seq<Info>
    requires q <= |code|
    decreases q
  {
    if q == 0 then []
    else Table(code, q - 1) + if Width(code[q - 1]) > 0 then [Info(Pos(code, q - 1), Depth(code, q).sp)] else []
  }

  lemma PassStarts(code: Code)
    ensures Pos(code, 0) == 0 && Table(code, 0) == []
  {
  }

  lemma PassStep(code: Code, q: nat)
    requires q < |code|
    ensures Pos(code, q + 1) == Pos(code, q) + Width(code[q])
    ensures |Table(code, q + 1)| == |Table(code, q)| + if Width(code[q]) > 0 then 1 else 0
  {
    hide Depth;
  }

  lemma {:induction false} PassesGrow(code: Code, p: nat, q: nat)
    requires p <= q <= |code|
    ensures |Table(code, p)| <= |Table(code, q)| && Pos(code, p) <= Pos(code, q)
    decreases q
  {
    hide Depth;
    if p < q { PassesGrow(code, p, q - 1); }
  }

  /** The largest depth behind an instruction. */
  function Peak(code: Code, q: nat): int
    requires q <= |code|
    decreases q
  {
    if q == 0 then 0
    else
      var before := Peak(code, q - 1);
      if code[q - 1].I? && Depth(code, q).sp > before then Depth(code, q).sp else before
  }

  lemma DepthNext(code: Code, q: nat)
    requires q < |code|
    ensures Depth(code, q + 1) == Record(code[q], Depth(code, q))
  {
    hide Record, Fold;
    assert code[..q + 1] == code[..q] + [code[q]];
    Chain(code[..q], [code[q]], Rec(0, map[]));
    One(code[q], Fold(code[..q], Rec(0, map[])));
  }

  /** No recorded depth exceeds the largest one behind an instruction. */
  lemma {:induction false} BelowPeak(code: Code, q: nat, l: nat)
    requires q <= |code|
    ensures Depth(code, q).sp <= Peak(code, q) && At0(Depth(code, q), l, Peak(code, q))
    decreases q
  {
    if q == 0 {
      assert code[..0] == [];
    } else {
      DepthNext(code, q - 1);
      BelowPeak(code, q - 1, l);
      var e := code[q - 1];
      if e.L? { BelowPeak(code, q - 1, e.l); }
      if e.Adj? { BelowPeak(code, q - 1, e.l); }
      hide Depth;
    }
  }

  ghost predicate At0(r: Rec, l: nat, bound: int) {
    0 <= bound && (l in r.sps ==> r.sps[l] <= bound)
  }

  lemma {:induction false} PeakGrows(code: Code, p: nat, q: nat)
    requires p <= q <= |code|
    ensures Peak(code, p) <= Peak(code, q)
    decreases q
  {
    hide Depth;
    if p < q { PeakGrows(code, p, q - 1); }
  }

  /** A positive peak is reached: it is the depth behind some instruction. */
  lemma {:induction false} PeakReached(code: Code, q: nat) returns (p: nat)
    requires q <= |code| && Peak(code, q) > 0
    ensures p < q && code[p].I? && Depth(code, p + 1).sp == Peak(code, q)
    decreases q
  {
    hide Depth;
    if code[q - 1].I? && Depth(code, q).sp > Peak(code, q - 1) {
      p := q - 1;
    } else {
      p := PeakReached(code, q - 1);
    }
  }

  /** Every element that emits words has its entry. */
  lemma {:induction false} TableAt(code: Code, p: nat, q: nat)
    requires p < q <= |code| && Width(code[p]) > 0
    ensures |Table(code, p)| < |Table(code, q)|
    ensures Table(code, q)[|Table(code, p)|] == Info(Pos(code, p), Depth(code, p + 1).sp)
    decreases q
  {
    hide Depth, Pos;
    if p < q - 1 { TableAt(code, p, q - 1); }
  }

  /** An instruction's words are its opcode and operands that are none. */
  lemma EmitOp(code: Code, q: nat)
    requires q < |code|
    ensures |Emit(code, q)| > 0 ==> Emit(code, q)[0].Op? && forall j :: 0 < j < |Emit(code, q)| ==>
            !Emit(code, q)[j].Op?
  {
    hide Depth, Offset;
  }

  /** The entries have the positions of the opcodes among the words, in order. */
  ghost predicate Located(table: seq<Info>, words: seq<Word>) {
    && (forall j, k :: 0 <= j < k < |table| ==> table[j].position < table[k].position)
    && (forall k :: 0 <= k < |table| ==> table[k].position < |words| && words[table[k].position].Op?)
    && (forall i :: 0 <= i < |words| && words[i].Op? ==> exists k :: 0 <= k < |table| && table[k].position == i)
  }

  lemma LocatedMore(table: seq<Info>, words: seq<Word>, e: seq<Word>, sp: int)
    requires Located(table, words) && e != [] && e[0].Op? && forall j :: 0 < j < |e| ==> !e[j].Op?
    ensures Located(table + [Info(|words|, sp)], words + e)
  {
    var t, w := table + [Info(|words|, sp)], words + e;
    forall i | 0 <= i < |w| && w[i].Op? ensures exists k :: 0 <= k < |t| && t[k].position == i {
      if i < |words| {
        var k :| 0 <= k < |table| && table[k].position == i;
        assert t[k] == table[k];
      } else {
        assert t[|table|].position == i;
      }
    }
  }

  /** The table is that of the words. */
  lemma {:induction false} TablePositions(code: Code, q: nat)
    requires q <= |code|
    ensures Located(Table(code, q), Words(code, q))
    decreases q
  {
    hide Depth, Pos, Emit, Table, Words;
    if q == 0 {
      ListStart(code);
    } else {
      hide Located;
      TablePositions(code, q - 1);
      WordsLength(code, q - 1);
      NextElement(code, q - 1);
      EmitOp(code, q - 1);
      var t, w, e := Table(code, q - 1), Words(code, q - 1), Emit(code, q - 1);
      if e == [] { assert w + e == w && t + [] == t; } else { LocatedMore(t, w, e, Depth(code, q).sp); }
    }
  }

  /** What linking refuses at element q: a reference to a label that is not in the list, or an
      adjustment that would have to push. */
  ghost predicate Fine(code: Code, q: nat)
    requires q < |code|
  {
    match code[q]
    case I(i) => Target(i).Some? ==> Defs(code, Target(i).value) > 0
    case L(_) => true
    case Adj(_, emits) => emits ==> Depth(code, q).sp >= Depth(code, q + 1).sp
  }

  datatype Status = Linked | UnknownLabel | AdjustBug

  /** The label fields position and sp, and what is generated. A label is in position once set, and in
      sp once its depth is not -1. */
  class Linker {
    var position: map<nat, nat>
    var sps: map<nat, int>
    var words: array<Word>
    var infos: array<Info>
    var stackMax: int

    constructor ()
      ensures position == map[] && sps == map[] && fresh(words) && fresh(infos)
    {
      position, sps, stackMax := map[], map[], 0;
      words, infos := new Word[0], new Info[0];
    }

    /** The first pass sets every label's position and counts words and table entries. */
    method SetPositions(code: Code) returns (pos: nat, k: nat)
      requires position == map[] && Distinct(code)
      modifies this`position
      ensures pos == Pos(code, |code|) && k == |Table(code, |code|)|
      ensures PositionsSet(code)
    {
      hide Distinct, Find, Defs, Depth, Pos, Table;
      pos, k := 0, 0;
      PassStarts(code);
      var i := 0;
      while i < |code|
        invariant i <= |code| && pos == Pos(code, i) && k == |Table(code, i)|
        invariant forall l: nat :: l in position ==>
                  exists j :: 0 <= j < i && code[j] == L(l) && position[l] == Pos(code, j)
        invariant forall j :: 0 <= j < i && code[j].L? ==> code[j].l in position
      {
        PassStep(code, i);
        match code[i] {
          case I(insn) =>
            pos := pos + Width(code[i]);
            k := k + 1;
          case L(l) => position := position[l := pos];
          case Adj(_, emits) =>
            if emits {
              pos := pos + 2;
              k := k + 1;
            }
        }
        i := i + 1;
      }
      LabelsPositioned(code, position);
    }

    /** What the first pass leaves behind. */
    ghost predicate PositionsSet(code: Code)
      reads this`position
    {
      && (forall l: nat :: l in position <==> Defs(code, l) > 0)
      && (forall l: nat :: l in position ==> position[l] == Pos(code, Find(code, l)))
    }

    /** One instruction of the second pass. */
    method EmitInsn(code: Code, i: nat, pos: nat, sp: int) returns (ok: bool, sp': int, w: seq<Word>)
      requires i < |code| && code[i].I? && pos == Pos(code, i) && PositionsSet(code)
      requires Depth(code, i) == Rec(sp, sps) && stackMax == Peak(code, i)
      modifies this`sps, this`stackMax
      ensures ok <==> Fine(code, i)
      ensures ok ==> Depth(code, i + 1) == Rec(sp', sps) && stackMax == Peak(code, i + 1) && w == Emit(code, i)
    {
      hide Depth, Find, Defs, Effect, Pos;
      DepthNext(code, i);
      var insn := code[i].insn;
      sp' := sp + Effect(insn);
      if sp' > stackMax { stackMax := sp'; }
      ok := true;
      if Target(insn).Some? {
        var l := Target(insn).value;
        if l !in position { return false, sp', []; }
        if l !in sps { sps := sps[l := sp']; }
        w := [Op(Branching(insn)), Num(position[l] - (pos + 2))];
      } else {
        w := Plainly(insn);
      }
    }

    /** One adjustment of the second pass. */
    method EmitAdjust(code: Code, i: nat, sp: int) returns (ok: bool, sp': int, w: seq<Word>)
      requires i < |code| && code[i].Adj? && Depth(code, i) == Rec(sp, sps)
      ensures ok <==> Fine(code, i)
      ensures ok ==> Depth(code, i + 1) == Rec(sp', sps) && Peak(code, i + 1) == Peak(code, i) && w == Emit(code, i)
    {
      hide Depth, Find, Defs;
      DepthNext(code, i);
      sp' := if code[i].l in sps then sps[code[i].l] else -1;
      ok, w := true, [];
      if code[i].emits {
        if sp - sp' > 0 {
          w := [Op(AdjustStackOp), Num(sp - sp')];
        } else if sp - sp' == 0 {
          w := [Op(JumpOp), Num(0)];
        } else {
          ok := false;
        }
      }
    }

    /** A label of the second pass. */
    method MeetLabel(code: Code, i: nat, sp: int) returns (sp': int)
      requires i < |code| && code[i].L? && Depth(code, i) == Rec(sp, sps)
      modifies this`sps
      ensures Fine(code, i) && Depth(code, i + 1) == Rec(sp', sps) && Peak(code, i + 1) == Peak(code, i)
      ensures Emit(code, i) == []
    {
      hide Depth;
      DepthNext(code, i);
      var l := code[i].l;
      sp' := sp;
      if l !in sps { sps := sps[l := sp]; } else { sp' := sps[l]; }
    }

    /** The second pass emits the words, with every offset measured by the first pass's positions, and
        records depths; what it refuses is exactly a list with an element that is not fine. */
    method SetSequence(code: Code) returns (status: Status)
      requires position == map[] && sps == map[] && Distinct(code)
      modifies this
      ensures status == Linked <==> forall q :: 0 <= q < |code| ==> Fine(code, q)
      ensures status == Linked ==>
                words[..] == Words(code, |code|) && infos[..] == Table(code, |code|) && stackMax == Peak(code, |code|)
    {
      hide Distinct, Find, Defs, Depth, Words, Table, Pos, Emit, Fine, PositionsSet, Peak;
      var pos, k := SetPositions(code);
      var out, table := new Word[pos](_ => Num(0)), new Info[k](_ => Info(0, 0));
      pos, k := 0, 0;
      var sp, i := 0, 0;
      stackMax := 0;
      ListStart(code);
      while i < |code|
        invariant i <= |code| && pos == Pos(code, i) && k == |Table(code, i)| && PositionsSet(code)
        invariant out.Length == Pos(code, |code|) && table.Length == |Table(code, |code|)|
        invariant Depth(code, i) == Rec(sp, sps) && stackMax == Peak(code, i)
        invariant pos <= out.Length && k <= table.Length && out[..pos] == Words(code, i) && table[..k] == Table(code, i)
        invariant forall q :: 0 <= q < i ==> Fine(code, q)
        modifies this`sps, this`stackMax, out, table
      {
        NextElement(code, i);
        var ok, w := true, [];
        match code[i] {
          case I(_) => ok, sp, w := EmitInsn(code, i, pos, sp);
          case L(_) => sp := MeetLabel(code, i, sp);
          case Adj(_, _) => ok, sp, w := EmitAdjust(code, i, sp);
        }
        if !ok {
          return if code[i].I? then UnknownLabel else AdjustBug;
        }
        Put(out, pos, w);
        if |w| > 0 {
          PutInfo(table, k, Info(pos, sp));
          k := k + 1;
        }
        pos := pos + |w|;
        i := i + 1;
      }
      words, infos := out, table;
      status := Linked;
    }
  }

  /** Writes the words of one instruction. */
  method Put(out: array<Word>, pos: nat, w: seq<Word>)
    requires pos + |w| <= out.Length
    modifies out
    ensures out[..pos + |w|] == old(out[..pos]) + w
  {
    for j := 0 to |w|
      invariant out[..pos + j] == old(out[..pos]) + w[..j]
    {
      out[pos + j] := w[j];
    }
  }

  method PutInfo(table: array<Info>, k: nat, info: Info)
    requires k < table.Length
    modifies table
    ensures table[..k + 1] == old(table[..k]) + [info]
  {
    table[k] := info;
  }

  lemma ListStart(code: Code)
    ensures Depth(code, 0) == Rec(0, map[]) && Pos(code, 0) == 0 && Words(code, 0) == [] && Table(code, 0) == []
    ensures Peak(code, 0) == 0
  {
    assert code[..0] == [];
  }

  /** What the second pass relies on at element i. */
  lemma NextElement(code: Code, i: nat)
    requires i < |code|
    ensures Words(code, i + 1) == Words(code, i) + Emit(code, i)
    ensures Table(code, i + 1) == Table(code, i) + if |Emit(code, i)| > 0
            then [Info(Pos(code, i), Depth(code, i + 1).sp)] else []
    ensures Pos(code, i + 1) == Pos(code, i) + |Emit(code, i)| <= Pos(code, |code|)
    ensures |Table(code, i + 1)| <= |Table(code, |code|)|
  {
    hide Depth;
    EmitWidth(code, i);
    PassesGrow(code, i + 1, |code|);
  }

  /** Every label in the list has its one place's position. */
  lemma LabelsPositioned(code: Code, position: map<nat, nat>)
    requires Distinct(code)
    requires forall l: nat :: l in position ==>
             exists j :: 0 <= j < |code| && code[j] == L(l) && position[l] == Pos(code, j)
    requires forall j :: 0 <= j < |code| && code[j].L? ==> code[j].l in position
    ensures forall l: nat :: l in position <==> Defs(code, l) > 0
    ensures forall l: nat :: l in position ==> position[l] == Pos(code, Find(code, l))
  {
    hide Distinct, Find, Defs, Pos;
    forall l: nat
      ensures l in position <==> Defs(code, l) > 0
      ensures l in position ==> position[l] == Pos(code, Find(code, l))
    {
      FindPlaced(code, l);
      var q := Find(code, l);
      assert q < |code| ==> code[q].L? && code[q].l in position;
      if l in position {
        var j :| 0 <= j < |code| && code[j] == L(l) && position[l] == Pos(code, j);
        Lands(code, l, j);
        PlacedCounts(code, l, j);
      }
    }
  }

  lemma PlacedCounts(code: Code, l: nat, j: nat)
    requires j < |code| && code[j] == L(l)
    ensures Defs(code, l) > 0
    decreases |code|
  {
    if j > 0 { PlacedCounts(code[1..], l, j - 1); }
  }

  /** The words of an instruction that does not jump. */
  function Plainly(i: Insn): seq<Word>
    requires Target(i) == None
  {
    match i
    case PutNil => [Op(PutNilOp)]
    case PutObject(v) => [Op(PutObjectOp), Object(v)]
    case Pop => [Op(PopOp)]
    case Dup => [Op(DupOp)]
    case GetLocal(x) => [Op(GetLocalOp), Num(x)]
    case SetLocal(x) => [Op(SetLocalOp), Num(x)]
    case Leave => [Op(LeaveOp)]
  }

  function Branching(i: Insn): Opcode
    requires Target(i).Some?
  {
    match i
    case Jump(_) => JumpOp
    case BranchIf(_) => BranchIfOp
    case BranchUnless(_) => BranchUnlessOp
  }
}
