/** The part of the node tree that compile.c lowers by itself: literals, local variables,
    sequences, conditionals, short-circuit operators, loops and break; and what it means. */
module Nodes {

  import opened Options

  datatype Value = NilV | FalseV | TrueV | Obj(n: int)

  predicate Truthy(v: Value) {
    v != NilV && v != FalseV
  }

  /** Absent is the null pointer. Block is one cell of a NODE_BLOCK list. Until and TestFirst tell
      the four loop forms apart. */
  datatype Node =
    | Absent | NilLit | TrueLit | FalseLit | Lit(n: int)
    | LVar(i: nat) | LAsgn(i: nat, value: Node)
    | Block(head: Node, next: Node)
    | If(cond: Node, body: Node, els: Node)
    | And(a: Node, b: Node) | Or(a: Node, b: Node)
    | While(cond: Node, body: Node, until: bool, testFirst: bool)
    | Break(value: Node)

  /** Local variables; one never assigned is nil. */
  type Env = map<nat, Value>

  function Get(env: Env, i: nat): Value {
    if i in env then env[i] else NilV
  }

  /** How evaluation ends: with a value, or by a break on its way to the enclosing loop. */
  datatype Outcome = Normal(v: Value, env: Env) | Broke(v: Value, env: Env)

  /** The meaning of a node, or None when its loops need more than fuel iterations. */
  function Eval(n: Node, env: Env, fuel: nat): Option<Outcome>
    decreases fuel, n, 2
  {
    match n
    case Absent => Some(Normal(NilV, env))
    case NilLit => Some(Normal(NilV, env))
    case TrueLit => Some(Normal(TrueV, env))
    case FalseLit => Some(Normal(FalseV, env))
    case Lit(k) => Some(Normal(Obj(k), env))
    case LVar(i) => Some(Normal(Get(env, i), env))
    case LAsgn(i, value) =>
      var r := Eval(value, env, fuel);
      if r.Some? && r.value.Normal? then Some(Normal(r.value.v, r.value.env[i := r.value.v])) else r
    case Block(head, next) =>
      var r := Eval(head, env, fuel);
      if r.Some? && r.value.Normal? && !next.Absent? then Eval(next, r.value.env, fuel) else r
    case If(cond, body, els) =>
      var r := Eval(cond, env, fuel);
      if r.Some? && r.value.Normal?
      then (if Truthy(r.value.v) then Eval(body, r.value.env, fuel) else Eval(els, r.value.env, fuel))
      else r
    case And(a, b) =>
      var r := Eval(a, env, fuel);
      if r.Some? && r.value.Normal? && Truthy(r.value.v) then Eval(b, r.value.env, fuel) else r
    case Or(a, b) =>
      var r := Eval(a, env, fuel);
      if r.Some? && r.value.Normal? && !Truthy(r.value.v) then Eval(b, r.value.env, fuel) else r
    case While(_, _, _, testFirst) =>
      if testFirst then LoopTest(n, env, fuel) else LoopBody(n, env, fuel)
    case Break(value) =>
      var r := Eval(value, env, fuel);
      if r.Some? then Some(Broke(r.value.v, r.value.env)) else r
  }

  /** A loop about to test its condition; a break in the condition ends the loop too. */
  function LoopTest(w: Node, env: Env, fuel: nat): Option<Outcome>
    requires w.While?
    decreases fuel, w, 1
  {
    var r := Eval(w.cond, env, fuel);
    if r.None? then None
    else if r.value.Broke? then Some(Normal(r.value.v, r.value.env))
    else if Truthy(r.value.v) != w.until then LoopBody(w, r.value.env, fuel)
    else Some(Normal(NilV, r.value.env))
  }

  /** A loop about to run its body. */
  function LoopBody(w: Node, env: Env, fuel: nat): Option<Outcome>
    requires w.While?
    decreases fuel, w, 0
  {
    var r := Eval(w.body, env, fuel);
    if r.None? then None
    else if r.value.Broke? then Some(Normal(r.value.v, r.value.env))
    else if fuel == 0 then None
    else LoopTest(w, r.value.env, fuel - 1)
  }

  /** Break occurs only inside loops, and a block list is made of block cells. */
  predicate WellFormed(n: Node, inLoop: bool) {
    match n
    case LAsgn(_, value) => WellFormed(value, inLoop)
    case Block(head, next) => WellFormed(head, inLoop) && WellFormed(next, inLoop) && (next.Absent? || next.Block?)
    case If(cond, body, els) => WellFormed(cond, inLoop) && WellFormed(body, inLoop) && WellFormed(els, inLoop)
    case And(a, b) => WellFormed(a, inLoop) && WellFormed(b, inLoop)
    case Or(a, b) => WellFormed(a, inLoop) && WellFormed(b, inLoop)
    case While(cond, body, _, _) => WellFormed(cond, true) && WellFormed(body, true)
    case Break(value) => inLoop && WellFormed(value, inLoop)
    case _ => true
  }

  // ----- the meaning one level deep, for proofs that must not unfold further -----

  lemma EvalAsgn(n: Node, env: Env, fuel: nat)
    requires n.LAsgn?
    ensures var r := Eval(n.value, env, fuel);
            Eval(n, env, fuel) == if r.Some? && r.value.Normal?
                then Some(Normal(r.value.v, r.value.env[n.i := r.value.v])) else r
  {
  }

  lemma EvalBlock(n: Node, env: Env, fuel: nat)
    requires n.Block?
    ensures var r := Eval(n.head, env, fuel);
            Eval(n, env, fuel) == if r.Some? && r.value.Normal? && !n.next.Absent?
                then Eval(n.next, r.value.env, fuel) else r
  {
  }

  lemma EvalIf(n: Node, env: Env, fuel: nat)
    requires n.If?
    ensures var r := Eval(n.cond, env, fuel);
            Eval(n, env, fuel) == if r.Some? && r.value.Normal?
                                  then Eval(if Truthy(r.value.v) then n.body else n.els, r.value.env, fuel) else r
  {
  }

  lemma EvalShort(n: Node, env: Env, fuel: nat)
    requires n.And? || n.Or?
    ensures var r := Eval(n.a, env, fuel);
            Eval(n, env, fuel) == if r.Some? && r.value.Normal? && Truthy(r.value.v) == n.And?
                                  then Eval(n.b, r.value.env, fuel) else r
  {
    if n.And? {} else {}
  }

  lemma EvalBreak(n: Node, env: Env, fuel: nat)
    requires n.Break?
    ensures var r := Eval(n.value, env, fuel);
            Eval(n, env, fuel) == if r.Some? then Some(Broke(r.value.v, r.value.env)) else r
  {
  }

  lemma EvalWhile(n: Node, env: Env, fuel: nat)
    requires n.While?
    ensures Eval(n, env, fuel) == if n.testFirst then LoopTest(n, env, fuel) else LoopBody(n, env, fuel)
  {
    hide LoopTest, LoopBody;
  }

  /** More fuel never changes a result. */
  lemma {:induction false} FuelMonotone(n: Node, env: Env, fuel: nat, more: nat)
    requires fuel <= more && Eval(n, env, fuel).Some?
    ensures Eval(n, env, more) == Eval(n, env, fuel)
    decreases fuel, n, 2
  {
    match n
    case LAsgn(_, value) => FuelMonotone(value, env, fuel, more);
    case Block(head, next) =>
      FuelMonotone(head, env, fuel, more);
      var r := Eval(head, env, fuel).value;
      if r.Normal? && !next.Absent? { FuelMonotone(next, r.env, fuel, more); }
    case If(cond, body, els) =>
      FuelMonotone(cond, env, fuel, more);
      var r := Eval(cond, env, fuel).value;
      if r.Normal? { FuelMonotone(if Truthy(r.v) then body else els, r.env, fuel, more); }
    case And(a, b) =>
      FuelMonotone(a, env, fuel, more);
      var r := Eval(a, env, fuel).value;
      if r.Normal? && Truthy(r.v) { FuelMonotone(b, r.env, fuel, more); }
    case Or(a, b) =>
      FuelMonotone(a, env, fuel, more);
      var r := Eval(a, env, fuel).value;
      if r.Normal? && !Truthy(r.v) { FuelMonotone(b, r.env, fuel, more); }
    case While(_, _, _, testFirst) =>
      if testFirst { FuelMonotoneTest(n, env, fuel, more); } else { FuelMonotoneBody(n, env, fuel, more); }
    case Break(value) => FuelMonotone(value, env, fuel, more);
    case _ =>
  }

  lemma {:induction false} FuelMonotoneTest(w: Node, env: Env, fuel: nat, more: nat)
    requires w.While? && fuel <= more && LoopTest(w, env, fuel).Some?
    ensures LoopTest(w, env, more) == LoopTest(w, env, fuel)
    decreases fuel, w, 1
  {
    FuelMonotone(w.cond, env, fuel, more);
    var r := Eval(w.cond, env, fuel).value;
    if r.Normal? && Truthy(r.v) != w.until { FuelMonotoneBody(w, r.env, fuel, more); }
  }

  lemma {:induction false} FuelMonotoneBody(w: Node, env: Env, fuel: nat, more: nat)
    requires w.While? && fuel <= more && LoopBody(w, env, fuel).Some?
    ensures LoopBody(w, env, more) == LoopBody(w, env, fuel)
    decreases fuel, w, 0
  {
    FuelMonotone(w.body, env, fuel, more);
    var r := Eval(w.body, env, fuel).value;
    if r.Normal? { FuelMonotoneTest(w, r.env, fuel - 1, more - 1); }
  }

  /** Outside loops no break escapes. */
  lemma {:induction false} NoBreakEscapes(n: Node, env: Env, fuel: nat)
    requires WellFormed(n, false) && Eval(n, env, fuel).Some?
    ensures Eval(n, env, fuel).value.Normal?
    decreases fuel, n, 2
  {
    match n
    case LAsgn(_, value) => NoBreakEscapes(value, env, fuel);
    case Block(head, next) =>
      NoBreakEscapes(head, env, fuel);
      if !next.Absent? { NoBreakEscapes(next, Eval(head, env, fuel).value.env, fuel); }
    case If(cond, body, els) =>
      NoBreakEscapes(cond, env, fuel);
      var r := Eval(cond, env, fuel).value;
      NoBreakEscapes(if Truthy(r.v) then body else els, r.env, fuel);
    case And(a, b) =>
      NoBreakEscapes(a, env, fuel);
      var r := Eval(a, env, fuel).value;
      if Truthy(r.v) { NoBreakEscapes(b, r.env, fuel); }
    case Or(a, b) =>
      NoBreakEscapes(a, env, fuel);
      var r := Eval(a, env, fuel).value;
      if !Truthy(r.v) { NoBreakEscapes(b, r.env, fuel); }
    case While(_, _, _, testFirst) =>
      if testFirst { LoopsEndNormally(n, env, fuel, true); } else { LoopsEndNormally(n, env, fuel, false); }
    case _ =>
  }

  lemma {:induction false} LoopsEndNormally(w: Node, env: Env, fuel: nat, test: bool)
    requires w.While? && (if test then LoopTest(w, env, fuel) else LoopBody(w, env, fuel)).Some?
    ensures (if test then LoopTest(w, env, fuel) else LoopBody(w, env, fuel)).value.Normal?
    decreases fuel, w, if test then 1 else 0
  {
    if test {
      var r := Eval(w.cond, env, fuel).value;
      if r.Normal? && Truthy(r.v) != w.until { LoopsEndNormally(w, r.env, fuel, false); }
    } else {
      var r := Eval(w.body, env, fuel).value;
      if r.Normal? { LoopsEndNormally(w, r.env, fuel - 1, true); }
    }
  }
}
