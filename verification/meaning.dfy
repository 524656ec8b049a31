/** A compiled program means what its tree means, and linking knows its stack depth everywhere. */
module Meaning {
  import opened Nodes
  import opened Options
  import opened Lowering
  import opened Depths
  import opened Machine

  function Start(env: Env): State { State(0, [], env) }

  /** Running the compiled form against evaluating the tree: with enough fuel the value is on the
      stack in front of leave; otherwise the machine is still running after that many steps. */
  lemma Preserves(n: Node, env: Env, fuel: nat) returns (m: nat)
    requires WellFormed(n, false)
    ensures match Eval(n, env, fuel)
            case None => m >= fuel && After(Compile(n), Start(env), m).Some?
            case Some(Broke(_, _)) => false
            case Some(Normal(v, env1)) => After(Compile(n), Start(env), m) == Some(State(|Compile(n)| - 1, [v], env1))
  {
    hide Lower, Labels, WellFormed, Eval, After, Fold, AdjustsDown;
    var code, c, r := Compile(n), Lower(n, false, NoLoop, 0), Rec(0, map[]);
    assert Distinct(code) by {
      hide Defs, Compile;
      forall l: nat ensures Defs(code, l) <= 1 { CompileLabels(n, l); }
    }
    assert Sits(code, 0, c);
    assert code[..0] == [];
    assert Fold([], r) == r by { FoldNothing(r); }
    hide Distinct, Sits;
    m := Sim(code, Start(env), n, false, NoLoop, 0, r, fuel);
    if Eval(n, env, fuel).Some? { NoBreakEscapes(n, env, fuel); }
    assert forall v :: [] + Kept(false, v) == [v];
  }

  lemma FoldNothing(r: Rec)
    ensures Fold([], r) == r
  {
  }

  /** At leave the machine stops, one value deep. */
  lemma AtLeave(n: Node, s: State)
    requires WellFormed(n, false) && s.pc == |Compile(n)| - 1 && |s.stack| == 1
    ensures Agrees(Compile(n), s) && Step(Compile(n), s) == None
  {
    hide Lower, Labels, WellFormed, Fold, AdjustsDown;
    var c, r := Lower(n, false, NoLoop, 0), Rec(0, map[]);
    LinkLower(n, false, NoLoop, 0, r);
    assert Compile(n)[..|c|] == c;
  }

  lemma {:induction false} StepsAdd(code: Code, s: State, m: nat, j: nat)
    requires Steps(code, s, m).Some?
    ensures Steps(code, s, m + j) == Steps(code, Steps(code, s, m).value, j)
    decreases m
  {
    hide Step;
    if m > 0 { StepsAdd(code, Step(code, s).value, m - 1, j); }
  }

  lemma OneStep(code: Code, s: State)
    ensures Steps(code, s, 1) == Step(code, s)
  {
    hide Step;
    if Step(code, s).Some? { assert Steps(code, Step(code, s).value, 0) == Step(code, s); }
  }

  /** Every state a compiled program reaches: either it can go on, or it is at leave with the value
      and the variables the tree gives. */
  lemma Computes(n: Node, env: Env, m: nat, s: State)
    requires WellFormed(n, false) && Steps(Compile(n), Start(env), m) == Some(s) && Step(Compile(n), s) == None
    ensures s.pc == |Compile(n)| - 1 && |s.stack| == 1 && Eval(n, env, m + 1) == Some(Normal(s.stack[0], s.env))
  {
    hide Compile, Eval, After, Steps, Step, WellFormed;
    var code, s0 := Compile(n), Start(env);
    var j := Preserves(n, env, m + 1);
    if j > m {
      AfterPrefix(code, s0, j, m + 1);
      StepsAdd(code, s0, m, 1);
      OneStep(code, s);
      assert false;
    }
    var o := Eval(n, env, m + 1);
    var s1 := State(|code| - 1, [o.value.v], o.value.env);
    AfterPrefix(code, s0, j, j);
    AtLeave(n, s1);
    if j < m {
      StopsThere(code, s0, j, s1, m);
    }
  }

  /** Nothing follows a state that cannot step. */
  lemma StopsThere(code: Code, s0: State, j: nat, s1: State, m: nat)
    requires Steps(code, s0, j) == Some(s1) && Step(code, s1) == None && j < m
    ensures Steps(code, s0, m) == None
  {
    hide Step;
    StepsAdd(code, s0, j, m - j);
  }

  /** Static and dynamic depth agree in every state a compiled program ever reaches. */
  lemma AlwaysAgrees(n: Node, env: Env, m: nat, s: State)
    requires WellFormed(n, false) && Steps(Compile(n), Start(env), m) == Some(s)
    ensures Agrees(Compile(n), s)
  {
    hide Compile, Eval, After, Steps, Step, WellFormed, Agrees;
    var code, s0 := Compile(n), Start(env);
    var j := Preserves(n, env, m + 1);
    if m < j {
      AfterPrefix(code, s0, j, m);
    } else {
      var o := Eval(n, env, m + 1);
      var s1 := State(|code| - 1, [o.value.v], o.value.env);
      AfterPrefix(code, s0, j, j);
      AtLeave(n, s1);
      if j < m { StopsThere(code, s0, j, s1, m); }
    }
  }

  /** The machine runs for ever exactly when no amount of fuel evaluates the tree. */
  lemma RunsForever(n: Node, env: Env)
    requires WellFormed(n, false)
    ensures (forall m: nat :: Steps(Compile(n), Start(env), m).Some?) <==>
            (forall fuel: nat :: Eval(n, env, fuel).None?)
  {
    hide Compile, Eval, After, Steps, Step, WellFormed, Agrees;
    var code, s0 := Compile(n), Start(env);
    if forall fuel: nat :: Eval(n, env, fuel).None? {
      forall m: nat ensures Steps(code, s0, m).Some? {
        var j := Preserves(n, env, m);
        AfterPrefix(code, s0, j, m);
      }
    } else {
      var fuel: nat :| Eval(n, env, fuel).Some?;
      var j := Preserves(n, env, fuel);
      var o := Eval(n, env, fuel);
      var s1 := State(|code| - 1, [o.value.v], o.value.env);
      AfterPrefix(code, s0, j, j);
      AtLeave(n, s1);
      StopsThere(code, s0, j, s1, j + 1);
    }
  }
}
