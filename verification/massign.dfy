/** Parallel assignment to plain variables: the fast path of compile_massign_opt against the general
    path through an array. */
module ParallelAssignment {
  import opened Nodes
  import opened Options

  /** What stands on the left: a plain variable, or anything else the fast path declines. */
  datatype Target = Plain(id: nat) | Attribute

  /** A stack slot holds a value or the array on its way to expandarray. */
  datatype Slot = V(v: Value) | Arr(elems: seq<Value>)

  /** Pieces of emitted code; Sub is the code of an operand. */
  datatype Piece =
    | Sub(node: Node, poped: bool) | PutNil | SetVar(id: nat)
    | NewArray(n: nat) | DupArray(vs: seq<Value>) | ExpandArray(n: nat)

  // ----- running the pieces -----

  /** A run ends behind the code, or a break leaves it, or fuel runs out, or the stack does. */
  datatype Outcomes = Ran(stack: seq<Slot>, env: Env) | Left(v: Value, env: Env) | OutOfFuel | Underflow

  function Slots(vs: seq<Value>): (r: seq<Slot>)
    ensures |r| == |vs| && forall j :: 0 <= j < |vs| ==> r[j] == V(vs[j])
    decreases |vs|
  {
    if vs == [] then [] else [V(vs[0])] + Slots(vs[1..])
  }

  /** The values in slots that hold some. */
  function Held(slots: seq<Slot>): Option<seq<Value>>
    decreases |slots|
  {
    if slots == [] then Some([])
    else
      var front := Held(slots[..|slots| - 1]);
      var last := slots[|slots| - 1];
      if front.Some? && last.V? then Some(front.value + [last.v]) else None
  }

  /** expandarray: n values with the array's first on top, nil for what it lacks. */
  function Expanded(vs: seq<Value>, n: nat): (r: seq<Value>)
    ensures |r| == n
    decreases n
  {
    if n == 0 then [] else Expanded(if vs == [] then [] else vs[1..], n - 1) + [ValueAt(vs, 0)]
  }

  function Do(p: Piece, stack: seq<Slot>, env: Env, fuel: nat): Outcomes {
    var top := |stack| - 1;
    match p
    case Sub(n, poped) =>
      (match Eval(n, env, fuel)
       case None => OutOfFuel
       case Some(Broke(v, env1)) => Left(v, env1)
       case Some(Normal(v, env1)) => Ran(if poped then stack else stack + [V(v)], env1))
    case PutNil => Ran(stack + [V(NilV)], env)
    case SetVar(id) => if top >= 0 && stack[top].V? then Ran(stack[..top], env[id := stack[top].v]) else Underflow
    case NewArray(n) =>
      if n > |stack| then Underflow
      else
        var vs := Held(stack[|stack| - n..]);
        if vs.Some? then Ran(stack[..|stack| - n] + [Arr(vs.value)], env) else Underflow
    case DupArray(vs) => Ran(stack + [Arr(vs)], env)
    case ExpandArray(n) =>
      if top >= 0 && stack[top].Arr? then Ran(stack[..top] + Slots(Expanded(stack[top].elems, n)), env) else Underflow
  }

  function Run(code: seq<Piece>, stack: seq<Slot>, env: Env, fuel: nat): Outcomes
    decreases |code|
  {
    if code == [] then Ran(stack, env)
    else
      var r := Do(code[0], stack, env, fuel);
      if r.Ran? then Run(code[1..], r.stack, r.env, fuel) else r
  }

  lemma {:induction false} RunConcat(a: seq<Piece>, b: seq<Piece>, stack: seq<Slot>, env: Env, fuel: nat)
    ensures var r := Run(a, stack, env, fuel);
            Run(a + b, stack, env, fuel) == if r.Ran? then Run(b, r.stack, r.env, fuel) else r
    decreases |a|
  {
    hide Do;
    if a == [] {
      assert a + b == b;
    } else {
      assert (a + b)[1..] == a[1..] + b;
      var r := Do(a[0], stack, env, fuel);
      if r.Ran? { RunConcat(a[1..], b, r.stack, r.env, fuel); }
    }
  }

  lemma RunOne(p: Piece, stack: seq<Slot>, env: Env, fuel: nat)
    ensures Run([p], stack, env, fuel) == Do(p, stack, env, fuel)
  {
    hide Do;
    var r := Do(p, stack, env, fuel);
    if r.Ran? { assert Run([], r.stack, r.env, fuel) == r; }
  }

  lemma RunCons(p: Piece, rest: seq<Piece>, stack: seq<Slot>, env: Env, fuel: nat)
    ensures var r := Do(p, stack, env, fuel);
            Run([p] + rest, stack, env, fuel) == if r.Ran? then Run(rest, r.stack, r.env, fuel) else r
  {
    hide Do;
    assert ([p] + rest)[1..] == rest;
  }

  lemma DoSet(id: nat, stack: seq<Slot>, v: Value, env: Env, fuel: nat)
    ensures Do(SetVar(id), stack + [V(v)], env, fuel) == Ran(stack, env[id := v])
  {
    assert (stack + [V(v)])[..|stack|] == stack;
  }

  // ----- what the two paths emit -----

  lemma RunNothing(stack: seq<Slot>, env: Env, fuel: nat)
    ensures Run([], stack, env, fuel) == Ran(stack, env)
  {
  }

  lemma DoSub(n: Node, poped: bool, stack: seq<Slot>, env: Env, fuel: nat)
    ensures var o := Eval(n, env, fuel);
            Do(Sub(n, poped), stack, env, fuel)
            == if o.None? then OutOfFuel else if o.value.Broke? then Left(o.value.v, o.value.env)
               else Ran(if poped then stack else stack + [V(o.value.v)], o.value.env)
  {
    hide Eval;
  }

  /** The operands; the ones from index keep on are evaluated and dropped. */
  function Operands(rhs: seq<Node>, keep: nat): (r: seq<Piece>)
    ensures |r| == |rhs| && forall j :: 0 <= j < |rhs| ==> r[j] == Sub(rhs[j], keep <= j)
    decreases |rhs|
  {
    if rhs == [] then [] else [Sub(rhs[0], keep == 0)] + Operands(rhs[1..], if keep == 0 then 0 else keep - 1)
  }

  function Nils(n: nat): (r: seq<Piece>)
    ensures |r| == n && forall j :: 0 <= j < n ==> r[j] == PutNil
    decreases n
  {
    if n == 0 then [] else [PutNil] + Nils(n - 1)
  }

  function NilValues(n: nat): (r: seq<Value>)
    ensures |r| == n && forall j :: 0 <= j < n ==> r[j] == NilV
    decreases n
  {
    if n == 0 then [] else [NilV] + NilValues(n - 1)
  }

  /** One assignment after the other. */
  function Sets(ids: seq<nat>): (r: seq<Piece>)
    ensures |r| == |ids|
    decreases |ids|
  {
    if ids == [] then [] else [SetVar(ids[0])] + Sets(ids[1..])
  }

  /** From the last variable to the first. */
  function Backwards(ids: seq<nat>): (r: seq<Piece>)
    ensures |r| == |ids|
    decreases |ids|
  {
    if ids == [] then [] else [SetVar(ids[|ids| - 1])] + Backwards(ids[..|ids| - 1])
  }

  function FastCode(ids: seq<nat>, rhs: seq<Node>): seq<Piece> {
    Operands(rhs, |ids|) + (Nils(if |ids| > |rhs| then |ids| - |rhs| else 0) + Backwards(ids))
  }

  /** A literal array is stored ready made. */
  predicate AllLiterals(rhs: seq<Node>) {
    forall j :: 0 <= j < |rhs| ==> rhs[j].Lit?
  }

  function Literals(rhs: seq<Node>): (r: seq<Value>)
    requires AllLiterals(rhs)
    ensures |r| == |rhs|
    decreases |rhs|
  {
    if rhs == [] then [] else [Obj(rhs[0].n)] + Literals(rhs[1..])
  }

  function ArrayCode(rhs: seq<Node>): seq<Piece> {
    if AllLiterals(rhs) then [DupArray(Literals(rhs))]
    else Operands(rhs, |rhs|) + [NewArray(|rhs|)]
  }

  function GeneralCode(ids: seq<nat>, rhs: seq<Node>): seq<Piece> {
    ArrayCode(rhs) + ([ExpandArray(|ids|)] + Sets(ids))
  }

  // ----- what they mean -----

  datatype Operated = Values(vs: seq<Value>, env: Env) | Gone(v: Value, env: Env) | NoFuel

  /** The right-hand values, evaluated in order. */
  function EvalAll(rhs: seq<Node>, env: Env, fuel: nat): (r: Operated)
    ensures r.Values? ==> |r.vs| == |rhs|
    decreases |rhs|
  {
    if rhs == [] then Values([], env)
    else
      var o := Eval(rhs[0], env, fuel);
      if o.None? then NoFuel
      else if o.value.Broke? then Gone(o.value.v, o.value.env)
      else
        var r := EvalAll(rhs[1..], o.value.env, fuel);
        if r.Values? then Values([o.value.v] + r.vs, r.env) else r
  }

  /** Every variable gets its value, nil where there is none. */
  function Assigned(env: Env, ids: seq<nat>, vs: seq<Value>): Env {
    map id | id in env.Keys + Members(ids) :: if id in ids then ValueAt(vs, IndexOf(ids, id)) else env[id]
  }

  function Members(ids: seq<nat>): set<nat> { set id | id in ids }

  function IndexOf(ids: seq<nat>, id: nat): (j: nat)
    requires id in ids
    ensures j < |ids| && ids[j] == id
    decreases |ids|
  {
    if ids[0] == id then 0 else 1 + IndexOf(ids[1..], id)
  }

  predicate AllDistinct(ids: seq<nat>) {
    forall i, j :: 0 <= i < j < |ids| ==> ids[i] != ids[j]
  }

  function ValueAt(vs: seq<Value>, j: nat): Value { if j < |vs| then vs[j] else NilV }

  /** A run after the operands: on with this stack, unless they did not all yield a value. */
  function Continued(o: Operated, stack: seq<Slot>): Outcomes {
    if o.Values? then Ran(stack, o.env) else if o.Gone? then Left(o.v, o.env) else OutOfFuel
  }

  /** The first n values. */
  function Taken(o: Operated, n: nat): seq<Value> {
    if o.Values? then (if n < |o.vs| then o.vs[..n] else o.vs) else []
  }

  /** The effect of parallel assignment, however it is compiled. */
  function Effect(ids: seq<nat>, rhs: seq<Node>, stack: seq<Slot>, env: Env, fuel: nat): Outcomes {
    var o := EvalAll(rhs, env, fuel);
    if o.Values? then Ran(stack, Assigned(o.env, ids, o.vs)) else Continued(o, stack)
  }

  /** env' is env with every variable holding its value, nil where there is none. */
  ghost predicate Gets(env': Env, env: Env, ids: seq<nat>, vs: seq<Value>) {
    && (forall id :: id in env' <==> id in env || id in ids)
    && (forall j :: 0 <= j < |ids| ==> env'[ids[j]] == ValueAt(vs, j))
    && (forall id :: id in env && id !in ids ==> env'[id] == env[id])
  }

  lemma GetsNone(env: Env, vs: seq<Value>)
    ensures Gets(env, env, [], vs)
  {
  }

  lemma GetsLast(env': Env, env: Env, ids: seq<nat>, vs: seq<Value>)
    requires ids != [] && |vs| == |ids| && AllDistinct(ids)
    requires var n := |ids| - 1; Gets(env', env[ids[n] := vs[n]], ids[..n], vs[..n])
    ensures Gets(env', env, ids, vs)
  {
    var n := |ids| - 1;
    assert ids == ids[..n] + [ids[n]];
    assert ids[n] !in ids[..n];
    assert forall j :: 0 <= j < n ==> ids[..n][j] == ids[j] && ValueAt(vs[..n], j) == vs[j];
  }

  lemma GetsFirst(env': Env, env: Env, ids: seq<nat>, vs: seq<Value>)
    requires ids != [] && AllDistinct(ids)
    requires Gets(env', env[ids[0] := ValueAt(vs, 0)], ids[1..], if vs == [] then [] else vs[1..])
    ensures Gets(env', env, ids, vs)
  {
    var rest := if vs == [] then [] else vs[1..];
    assert ids == [ids[0]] + ids[1..];
    assert ids[0] !in ids[1..];
    assert forall j :: 0 < j < |ids| ==> ids[j] == ids[1..][j - 1] && ValueAt(vs, j) == ValueAt(rest, j - 1);
  }

  lemma GetsPadded(env': Env, env: Env, ids: seq<nat>, vs: seq<Value>, padded: seq<Value>)
    requires Gets(env', env, ids, padded) && |padded| == |ids|
    requires forall j :: 0 <= j < |ids| ==> padded[j] == ValueAt(vs, j)
    ensures Gets(env', env, ids, vs)
  {
  }

  lemma AssignedIs(env: Env, ids: seq<nat>, vs: seq<Value>, env': Env)
    requires AllDistinct(ids)
    requires Gets(env', env, ids, vs)
    ensures env' == Assigned(env, ids, vs)
  {
    var a := Assigned(env, ids, vs);
    forall id ensures (id in a <==> id in env') && (id in a ==> a[id] == env'[id]) {
      if id in ids { assert ids[IndexOf(ids, id)] == id; }
    }
  }

  // ----- running the parts -----

  lemma TakenNone(o: Operated, keep: nat, stack: seq<Slot>)
    requires o.Values? && o.vs == []
    ensures stack + Slots(Taken(o, keep)) == stack
  {
  }

  lemma SlotsNone()
    ensures Slots([]) == []
  {
  }

  lemma SlotsFirst(v: Value, vs: seq<Value>)
    ensures Slots([v] + vs) == [V(v)] + Slots(vs)
  {
    assert ([v] + vs)[1..] == vs;
  }

  lemma TakenStep(v: Value, r: Operated, o: Operated, keep: nat, stack: seq<Slot>)
    requires if r.Values? then o == Values([v] + r.vs, r.env) else o == r
    ensures var stack1 := if keep == 0 then stack else stack + [V(v)];
            Continued(o, stack + Slots(Taken(o, keep)))
                == Continued(r, stack1 + Slots(Taken(r, if keep == 0 then 0 else keep - 1)))
  {
    hide Slots;
    if r.Values? {
      assert Taken(o, keep) == if keep == 0 then [] else [v] + Taken(r, keep - 1);
      assert Taken(r, 0) == [];
      if keep > 0 {
        var x := Taken(r, keep - 1);
        SlotsFirst(v, x);
        assert stack + ([V(v)] + Slots(x)) == stack + [V(v)] + Slots(x);
      } else {
        SlotsNone();
      }
    }
  }

  lemma {:induction false} RunOperands(rhs: seq<Node>, keep: nat, stack: seq<Slot>, env: Env, fuel: nat)
    ensures Run(Operands(rhs, keep), stack, env, fuel)
            == Continued(EvalAll(rhs, env, fuel), stack + Slots(Taken(EvalAll(rhs, env, fuel), keep)))
    decreases |rhs|
  {
    hide Eval, Run, Do, Slots, Taken;
    if rhs == [] {
      RunNothing(stack, env, fuel);
      TakenNone(EvalAll(rhs, env, fuel), keep, stack);
    } else {
      var o := Eval(rhs[0], env, fuel);
      var keep1 := if keep == 0 then 0 else keep - 1;
      RunCons(Sub(rhs[0], keep == 0), Operands(rhs[1..], keep1), stack, env, fuel);
      DoSub(rhs[0], keep == 0, stack, env, fuel);
      if o.Some? && o.value.Normal? {
        var v, env1 := o.value.v, o.value.env;
        RunOperands(rhs[1..], keep1, if keep == 0 then stack else stack + [V(v)], env1, fuel);
        TakenStep(v, EvalAll(rhs[1..], env1, fuel), EvalAll(rhs, env, fuel), keep, stack);
      }
    }
  }

  lemma {:induction false} RunNils(n: nat, stack: seq<Slot>, env: Env, fuel: nat)
    ensures Run(Nils(n), stack, env, fuel) == Ran(stack + Slots(NilValues(n)), env)
    decreases n
  {
    if n == 0 {
      assert Nils(0) == [];
      assert stack + Slots(NilValues(0)) == stack;
    } else {
      assert Nils(n)[1..] == Nils(n - 1);
      RunNils(n - 1, stack + [V(NilV)], env, fuel);
      assert stack + [V(NilV)] + Slots(NilValues(n - 1)) == stack + Slots(NilValues(n));
    }
  }

  lemma SlotsLast(vs: seq<Value>)
    requires vs != []
    ensures var n := |vs| - 1; Slots(vs) == Slots(vs[..n]) + [V(vs[n])]
  {
    var n := |vs| - 1;
    assert vs == vs[..n] + [vs[n]];
    SlotsMore(vs[..n], vs[n]);
  }

  lemma {:induction false} SlotsMore(vs: seq<Value>, v: Value)
    ensures Slots(vs + [v]) == Slots(vs) + [V(v)]
    decreases |vs|
  {
    if vs == [] {
      SlotsNone();
      SlotsFirst(v, []);
      hide Slots;
      assert vs + [v] == [v] + [];
    } else {
      var rest := vs[1..];
      SlotsFirst(vs[0], rest);
      SlotsFirst(vs[0], rest + [v]);
      SlotsMore(rest, v);
      hide Slots;
      assert vs == [vs[0]] + rest;
      assert vs + [v] == [vs[0]] + (rest + [v]);
    }
  }

  lemma BackwardsLast(ids: seq<nat>)
    requires ids != []
    ensures var n := |ids| - 1; Backwards(ids) == [SetVar(ids[n])] + Backwards(ids[..n])
  {
  }

  /** Assigning from the last variable to the first takes the last value off the stack first. */
  lemma {:induction false} RunBackwards(ids: seq<nat>, vs: seq<Value>, stack: seq<Slot>, env: Env, fuel: nat)
    returns (env': Env)
    requires |vs| == |ids| && AllDistinct(ids)
    ensures Run(Backwards(ids), stack + Slots(vs), env, fuel) == Ran(stack, env')
    ensures Gets(env', env, ids, vs)
    decreases |ids|
  {
    hide Run, Do, Gets;
    if ids == [] {
      RunNothing(stack, env, fuel);
      assert stack + Slots(vs) == stack;
      env' := env;
      GetsNone(env, vs);
    } else {
      var n := |ids| - 1;
      SlotsLast(vs);
      BackwardsLast(ids);
      hide Slots, Backwards;
      assert stack + Slots(vs) == stack + Slots(vs[..n]) + [V(vs[n])];
      RunCons(SetVar(ids[n]), Backwards(ids[..n]), stack + Slots(vs), env, fuel);
      DoSet(ids[n], stack + Slots(vs[..n]), vs[n], env, fuel);
      env' := RunBackwards(ids[..n], vs[..n], stack, env[ids[n] := vs[n]], fuel);
      GetsLast(env', env, ids, vs);
    }
  }

  /** Assigning from the first variable to the last, with the first value on top. */
  lemma {:induction false} RunSets(ids: seq<nat>, vs: seq<Value>, stack: seq<Slot>, env: Env, fuel: nat)
    returns (env': Env)
    requires AllDistinct(ids)
    ensures Run(Sets(ids), stack + Slots(Expanded(vs, |ids|)), env, fuel) == Ran(stack, env')
    ensures Gets(env', env, ids, vs)
    decreases |ids|
  {
    hide Run, Do, Gets;
    if ids == [] {
      RunNothing(stack, env, fuel);
      assert stack + Slots(Expanded(vs, 0)) == stack;
      env' := env;
      GetsNone(env, vs);
    } else {
      var rest, v := if vs == [] then [] else vs[1..], ValueAt(vs, 0);
      assert stack + Slots(Expanded(vs, |ids|)) == (stack + Slots(Expanded(rest, |ids| - 1))) + [V(v)];
      RunCons(SetVar(ids[0]), Sets(ids[1..]), stack + Slots(Expanded(vs, |ids|)), env, fuel);
      DoSet(ids[0], stack + Slots(Expanded(rest, |ids| - 1)), v, env, fuel);
      env' := RunSets(ids[1..], rest, stack, env[ids[0] := v], fuel);
      GetsFirst(env', env, ids, vs);
    }
  }

  lemma {:induction false} HeldSlots(vs: seq<Value>)
    ensures Held(Slots(vs)) == Some(vs)
    decreases |vs|
  {
    hide Slots;
    if vs != [] {
      var n := |vs| - 1;
      var slots := Slots(vs);
      assert slots[..n] == Slots(vs[..n]);
      HeldSlots(vs[..n]);
      assert Held(slots) == Some(vs[..n] + [slots[n].v]);
      assert vs == vs[..n] + [vs[n]];
    }
  }

  lemma {:induction false} LiteralsEval(rhs: seq<Node>, env: Env, fuel: nat)
    requires AllLiterals(rhs)
    ensures EvalAll(rhs, env, fuel) == Values(Literals(rhs), env)
    decreases |rhs|
  {
    if rhs != [] {
      LiteralsEval(rhs[1..], env, fuel);
    }
  }

  // ----- the two paths agree -----

  /** The fast path does what parallel assignment means. */
  lemma FastIsEffect(ids: seq<nat>, rhs: seq<Node>, stack: seq<Slot>, env: Env, fuel: nat)
    requires AllDistinct(ids)
    ensures Run(FastCode(ids, rhs), stack, env, fuel) == Effect(ids, rhs, stack, env, fuel)
  {
    hide Do, Eval, EvalAll, Run, Operands, Nils, Backwards, Assigned;
    var n := if |ids| > |rhs| then |ids| - |rhs| else 0;
    RunOperands(rhs, |ids|, stack, env, fuel);
    RunConcat(Operands(rhs, |ids|), Nils(n) + Backwards(ids), stack, env, fuel);
    var r := EvalAll(rhs, env, fuel);
    if r.Values? {
      var kept := if |ids| < |r.vs| then r.vs[..|ids|] else r.vs;
      var stack1 := stack + Slots(kept);
      RunNils(n, stack1, r.env, fuel);
      RunConcat(Nils(n), Backwards(ids), stack1, r.env, fuel);
      var padded := kept + NilValues(n);
      assert stack1 + Slots(NilValues(n)) == stack + Slots(padded);
      var env' := RunBackwards(ids, padded, stack, r.env, fuel);
      GetsPadded(env', r.env, ids, r.vs, padded);
      AssignedIs(r.env, ids, r.vs, env');
    }
  }

  /** Building the array leaves it on the stack. */
  lemma RunArray(rhs: seq<Node>, stack: seq<Slot>, env: Env, fuel: nat)
    ensures Run(ArrayCode(rhs), stack, env, fuel)
            == Continued(EvalAll(rhs, env, fuel), stack + [Arr(Taken(EvalAll(rhs, env, fuel), |rhs|))])
  {
    hide Eval, EvalAll, Run, Operands;
    if AllLiterals(rhs) {
      LiteralsEval(rhs, env, fuel);
      RunOne(ArrayCode(rhs)[0], stack, env, fuel);
    } else {
      RunOperands(rhs, |rhs|, stack, env, fuel);
      RunConcat(Operands(rhs, |rhs|), [NewArray(|rhs|)], stack, env, fuel);
      var r := EvalAll(rhs, env, fuel);
      if r.Values? {
        var all := stack + Slots(r.vs);
        RunOne(NewArray(|rhs|), all, r.env, fuel);
        assert all[|all| - |rhs|..] == Slots(r.vs) && all[..|all| - |rhs|] == stack;
        HeldSlots(r.vs);
      }
    }
  }

  /** The general path does what parallel assignment means. */
  lemma GeneralIsEffect(ids: seq<nat>, rhs: seq<Node>, stack: seq<Slot>, env: Env, fuel: nat)
    requires AllDistinct(ids)
    ensures Run(GeneralCode(ids, rhs), stack, env, fuel) == Effect(ids, rhs, stack, env, fuel)
  {
    hide Eval, EvalAll, Run, ArrayCode, Sets, Assigned;
    RunArray(rhs, stack, env, fuel);
    RunConcat(ArrayCode(rhs), [ExpandArray(|ids|)] + Sets(ids), stack, env, fuel);
    var r := EvalAll(rhs, env, fuel);
    if r.Values? {
      var all := stack + [Arr(r.vs)];
      RunConcat([ExpandArray(|ids|)], Sets(ids), all, r.env, fuel);
      RunOne(ExpandArray(|ids|), all, r.env, fuel);
      assert all[..|all| - 1] == stack;
      var env' := RunSets(ids, r.vs, stack, r.env, fuel);
      AssignedIs(r.env, ids, r.vs, env');
    }
  }

  /** For distinct variables the two paths are interchangeable: same variables, same stack, same
      break, same divergence. */
  lemma FastIsGeneral(ids: seq<nat>, rhs: seq<Node>, stack: seq<Slot>, env: Env, fuel: nat)
    requires AllDistinct(ids)
    ensures Run(FastCode(ids, rhs), stack, env, fuel) == Run(GeneralCode(ids, rhs), stack, env, fuel)
  {
    hide Run, FastCode, GeneralCode, Effect;
    FastIsEffect(ids, rhs, stack, env, fuel);
    GeneralIsEffect(ids, rhs, stack, env, fuel);
  }

  /** The check for distinct variables is needed: a, a = 1, 2 leaves 1 on the fast path, 2 on the
      general one. */
  lemma DuplicatesDiffer()
    ensures Run(FastCode([0, 0], [Lit(1), Lit(2)]), [], map[], 0) == Ran([], map[0 := Obj(1)])
    ensures Run(GeneralCode([0, 0], [Lit(1), Lit(2)]), [], map[], 0) == Ran([], map[0 := Obj(2)])
  {
    hide FastCode, GeneralCode, Run;
    DuplicateCode([Lit(1), Lit(2)]);
    RunDuplicatesFast();
    RunDuplicatesGeneral();
  }

  lemma RunDuplicatesFast()
    ensures Run([Sub(Lit(1), false), Sub(Lit(2), false), SetVar(0), SetVar(0)], [], map[], 0)
            == Ran([], map[0 := Obj(1)])
  {
    hide Run, Do;
    var none: seq<Slot> := [];
    var env: Env := map[];
    var one, two := V(Obj(1)), V(Obj(2));
    RunFour(Sub(Lit(1), false), Sub(Lit(2), false), SetVar(0), SetVar(0), none, env, 0);
    DoSub(Lit(1), false, none, env, 0);
    DoSub(Lit(2), false, [one], env, 0);
    assert none + [one] == [one] && [one] + [two] == [one, two];
    DoSet(0, [one], Obj(2), env, 0);
    DoSet(0, none, Obj(1), map[0 := Obj(2)], 0);
  }

  lemma RunDuplicatesGeneral()
    ensures Run([DupArray([Obj(1), Obj(2)]), ExpandArray(2), SetVar(0), SetVar(0)], [], map[], 0)
            == Ran([], map[0 := Obj(2)])
  {
    hide Run, Do;
    var none: seq<Slot> := [];
    var env: Env := map[];
    var one, two := V(Obj(1)), V(Obj(2));
    RunFour(DupArray([Obj(1), Obj(2)]), ExpandArray(2), SetVar(0), SetVar(0), none, env, 0);
    DoArray([Obj(1), Obj(2)], env);
    assert [two] + [one] == [two, one] && none + [two] == [two];
    DoSet(0, [two], Obj(1), env, 0);
    DoSet(0, none, Obj(2), map[0 := Obj(1)], 0);
  }

  lemma DoArray(vs: seq<Value>, env: Env)
    requires |vs| == 2
    ensures Do(DupArray(vs), [], env, 0) == Ran([Arr(vs)], env)
    ensures Do(ExpandArray(2), [Arr(vs)], env, 0) == Ran([V(vs[1]), V(vs[0])], env)
  {
    var none: seq<Slot> := [];
    assert [Arr(vs)][..0] == none && none + [Arr(vs)] == [Arr(vs)];
    TwoExpanded(vs);
    hide Expanded, Slots;
    assert none + [V(vs[1]), V(vs[0])] == [V(vs[1]), V(vs[0])];
  }

  lemma TwoExpanded(vs: seq<Value>)
    requires |vs| == 2
    ensures Slots(Expanded(vs, 2)) == [V(vs[1]), V(vs[0])]
  {
    assert Expanded(vs[1..], 1) == [vs[1]];
    assert Expanded(vs, 2) == [vs[1], vs[0]];
    assert Slots([vs[1], vs[0]]) == [V(vs[1]), V(vs[0])];
  }

  lemma DuplicateCode(rhs: seq<Node>)
    requires rhs == [Lit(1), Lit(2)]
    ensures FastCode([0, 0], rhs) == [Sub(Lit(1), false), Sub(Lit(2), false), SetVar(0), SetVar(0)]
    ensures GeneralCode([0, 0], rhs) == [DupArray([Obj(1), Obj(2)]), ExpandArray(2), SetVar(0), SetVar(0)]
  {
    assert Literals(rhs[1..]) == [Obj(2)];
    assert Literals(rhs) == [Obj(1), Obj(2)];
    assert [0, 0][1..] == [0] && [0, 0][..1] == [0];
    assert Backwards([0]) == [SetVar(0)] && Sets([0]) == [SetVar(0)];
  }

  lemma RunFour(a: Piece, b: Piece, c: Piece, d: Piece, stack: seq<Slot>, env: Env, fuel: nat)
    ensures var r1 := Do(a, stack, env, fuel);
            var r2 := if r1.Ran? then Do(b, r1.stack, r1.env, fuel) else r1;
            var r3 := if r2.Ran? then Do(c, r2.stack, r2.env, fuel) else r2;
            Run([a, b, c, d], stack, env, fuel) == if r3.Ran? then Do(d, r3.stack, r3.env, fuel) else r3
  {
    hide Do, Run;
    assert [a, b, c, d] == [a] + ([b] + ([c] + [d]));
    RunConcat([a], [b] + ([c] + [d]), stack, env, fuel);
    RunOne(a, stack, env, fuel);
    var r1 := Do(a, stack, env, fuel);
    if r1.Ran? {
      RunConcat([b], [c] + [d], r1.stack, r1.env, fuel);
      RunOne(b, r1.stack, r1.env, fuel);
      var r2 := Do(b, r1.stack, r1.env, fuel);
      if r2.Ran? {
        RunConcat([c], [d], r2.stack, r2.env, fuel);
        RunOne(c, r2.stack, r2.env, fuel);
        var r3 := Do(c, r2.stack, r2.env, fuel);
        if r3.Ran? { RunOne(d, r3.stack, r3.env, fuel); }
      }
    }
  }

  // ----- compile_massign -----

  const MEMSIZE := 64

  function Ids(lhs: seq<Target>): (r: seq<nat>)
    requires forall j :: 0 <= j < |lhs| ==> lhs[j].Plain?
    ensures |r| == |lhs| && forall j :: 0 <= j < |lhs| ==> r[j] == lhs[j].id
    decreases |lhs|
  {
    if lhs == [] then [] else [lhs[0].id] + Ids(lhs[1..])
  }

  /** What the fast path accepts: plain variables only, all different, no more than it can remember. */
  predicate Simple(lhs: seq<Target>) {
    && (forall j :: 0 <= j < |lhs| ==> lhs[j].Plain?)
    && AllDistinct(Ids(lhs)) && |lhs| <= MEMSIZE
  }

  /** MEMORY: whether the variable is new. */
  method IsNew(mem: seq<nat>, id: nat) returns (r: bool)
    ensures r <==> id !in mem
  {
    for i := 0 to |mem|
      invariant id !in mem[..i]
    {
      if mem[i] == id { return false; }
    }
    assert mem[..|mem|] == mem;
    r := true;
  }

  /** The targets, if the fast path takes them. */
  method Targets(lhs: seq<Target>) returns (ok: bool, mem: seq<nat>)
    ensures ok <==> Simple(lhs)
    ensures ok ==> mem == Ids(lhs)
  {
    mem := [];
    var llen := 0;
    while llen < |lhs|
      invariant llen <= |lhs| && llen <= MEMSIZE && |mem| == llen && AllDistinct(mem)
      invariant forall j :: 0 <= j < llen ==> lhs[j].Plain? && lhs[j].id == mem[j]
    {
      if lhs[llen].Attribute? || |mem| == MEMSIZE { return false, []; }
      var unseen := IsNew(mem, lhs[llen].id);
      if !unseen {
        assert (forall j :: 0 <= j < |lhs| ==> lhs[j].Plain?) ==> lhs[llen].id in Ids(lhs)[..llen];
        return false, [];
      }
      mem := mem + [lhs[llen].id];
      llen := llen + 1;
    }
    ok := true;
    assert mem == Ids(lhs);
  }

  /** compile_massign_opt for an array on the right: emits the fast code, or declines and emits nothing. */
  method CompileOpt(lhs: seq<Target>, rhs: seq<Node>) returns (ok: bool, ret: seq<Piece>)
    ensures ok <==> Simple(lhs)
    ensures ret == if ok then FastCode(Ids(lhs), rhs) else []
  {
    hide Simple, Operands, Nils, Backwards;
    var mem;
    ok, mem := Targets(lhs);
    if !ok { return false, []; }
    ret := EmitOperands(rhs, |mem|);
    if |mem| > |rhs| { ret := EmitNils(ret, |mem| - |rhs|); } else { NoNils(ret); }
    ret := AssignBackwards(ret, mem);
  }

  method EmitOperands(rhs: seq<Node>, llen: nat) returns (ret: seq<Piece>)
    ensures ret == Operands(rhs, llen)
  {
    ret := [];
    var rlen := 0;
    while rlen < |rhs|
      invariant rlen <= |rhs| && |ret| == rlen && forall j :: 0 <= j < rlen ==> ret[j] == Sub(rhs[j], llen <= j)
    {
      ret := ret + [Sub(rhs[rlen], llen <= rlen)];
      rlen := rlen + 1;
    }
    assert ret == Operands(rhs, llen);
  }

  method EmitNils(ret0: seq<Piece>, n: nat) returns (ret: seq<Piece>)
    ensures ret == ret0 + Nils(n)
  {
    ret := ret0;
    for i := 0 to n
      invariant ret == ret0 + Nils(i)
    {
      ret := ret + [PutNil];
      assert Nils(i + 1) == Nils(i) + [PutNil];
    }
  }

  lemma NoNils(ret: seq<Piece>)
    ensures ret + Nils(0) == ret
  {
  }

  lemma {:induction false} HeadLast(ids: seq<nat>)
    requires ids != []
    ensures Backwards(ids) == Backwards(ids[1..]) + [SetVar(ids[0])]
    decreases |ids|
  {
    if |ids| > 1 {
      var n := |ids| - 1;
      assert ids[..n][1..] == ids[1..][..n - 1];
      HeadLast(ids[..n]);
    }
  }

  /** compile_massign_opt_lhs: the rest of the list first, then its head. */
  method AssignBackwards(ret0: seq<Piece>, ids: seq<nat>) returns (ret: seq<Piece>)
    ensures ret == ret0 + Backwards(ids)
    decreases |ids|
  {
    ret := ret0;
    if ids != [] {
      ret := AssignBackwards(ret, ids[1..]);
      ret := ret + [SetVar(ids[0])];
      HeadLast(ids);
    }
  }

  function Plains(ids: seq<nat>): (r: seq<Target>)
    ensures (forall j :: 0 <= j < |r| ==> r[j].Plain?) && Ids(r) == ids
    decreases |ids|
  {
    if ids == [] then [] else [Plain(ids[0])] + Plains(ids[1..])
  }

  /** compile_massign for plain variables and an array on the right, the value not wanted: whichever
      path is taken, the code assigns in parallel. */
  method CompilePlain(ids: seq<nat>, rhs: seq<Node>) returns (ret: seq<Piece>)
    ensures forall stack, env, fuel ::
              Run(ret, stack, env, fuel)
              == if AllDistinct(ids)
                  then Effect(ids, rhs, stack, env, fuel) else Run(GeneralCode(ids, rhs), stack, env, fuel)
  {
    hide Run, FastCode, GeneralCode, Effect, AllDistinct;
    var lhs := Plains(ids);
    var ok;
    ok, ret := CompileOpt(lhs, rhs);
    if !ok { ret := GeneralCode(ids, rhs); }
    forall stack, env, fuel
      ensures Run(ret, stack, env, fuel)
              == if AllDistinct(ids)
                  then Effect(ids, rhs, stack, env, fuel) else Run(GeneralCode(ids, rhs), stack, env, fuel)
    {
      if AllDistinct(ids) {
        FastIsEffect(ids, rhs, stack, env, fuel);
        GeneralIsEffect(ids, rhs, stack, env, fuel);
      }
    }
  }
}
