/** The instruction-level machine of the rewrites runs a compiled program as the element-level machine
    does, so whatever keeps results keeps the meaning of the tree. */
module Optimized {
  import opened Nodes
  import opened Options
  import opened Lowering
  import opened Depths
  import opened Machine
  import opened Meaning
  import opened Linking
  import opened WordMachine
  import opened Peephole
  import opened OptimizePass
  import opened TidyTrees

  /** The depths linking has recorded by the end of the list. */
  function Recorded(n: Node): map<nat, int> {
    Depth(Compile(n), |Compile(n)|).sps
  }

  /** The same state with the labels ahead skipped. */
  function Ahead(c: Code, s: State): State
    requires s.pc <= |c|
  {
    State(Next(c, s.pc), s.stack, s.env)
  }

  lemma RecordedThere(n: Node, q: nat, l: nat)
    requires q <= |Compile(n)| && l in Depth(Compile(n), q).sps
    ensures l in Recorded(n) && Recorded(n)[l] == Depth(Compile(n), q).sps[l]
  {
    hide Compile, Fold;
    var c, r := Compile(n), Rec(0, map[]);
    assert c[..|c|] == c[..q] + c[q..];
    Chain(c[..q], c[q..], r);
    Grows(c[q..], Fold(c[..q], r), l);
  }

  lemma AdjustKnown(code: Code, q: nat)
    requires AdjustsDown(code, Rec(0, map[])) && q < |code| && code[q].Adj? && code[q].emits
    ensures code[q].l in Depth(code, q).sps && 0 <= Depth(code, q).sps[code[q].l] <= Depth(code, q).sp
  {
    assert code == code[..q] + code[q..];
    Chain(code[..q], code[q..], Rec(0, map[]));
    hide Fold;
    assert code[q..][0] == code[q];
  }

  /** A step over a label stays ahead; any other step is one of the instruction-level machine. */
  lemma StepsAlike(n: Node, s: State, s1: State)
    requires WellFormed(n, false) && Agrees(Compile(n), s) && Step(Compile(n), s) == Some(s1) && s1.pc <= |Compile(n)|
    ensures var c := Compile(n);
            if c[s.pc].L? then s1.pc == s.pc + 1 && Ahead(c, s1) == Ahead(c, s)
            else Ahead(c, s) == s && !AtLeaveOf(c, s) && Succ(c, Recorded(n), s) == Some(Ahead(c, s1))
  {
    hide Compile, Fold, Find, WellFormed, Recorded, Depth, AdjustsDown;
    var c := Compile(n);
    if c[s.pc].Adj? && c[s.pc].emits {
      CompiledAdjusts(n);
      AdjustKnown(c, s.pc);
      RecordedThere(n, s.pc, c[s.pc].l);
    } else if c[s.pc].I? && Target(c[s.pc].insn).Some? {
      TargetPlaced(n, s.pc);
      JumpsAlike(c, Recorded(n), s, s1);
    }
  }

  lemma TargetPlaced(n: Node, q: nat)
    requires WellFormed(n, false) && q < |Compile(n)| && Compile(n)[q].I? && Target(Compile(n)[q].insn).Some?
    ensures var c, l := Compile(n), Target(Compile(n)[q].insn).value;
            Find(c, l) < |c| && c[Find(c, l)] == L(l)
  {
    hide Compile, WellFormed;
    CompileSealed(n);
    FindPlaced(Compile(n), Target(Compile(n)[q].insn).value);
  }

  lemma JumpsAlike(c: Code, depth: map<nat, int>, s: State, s1: State)
    requires s.pc < |c| && c[s.pc].I? && Target(c[s.pc].insn).Some? && Step(c, s) == Some(s1) && s1.pc <= |c|
    requires var l := Target(c[s.pc].insn).value; Find(c, l) < |c| && c[Find(c, l)] == L(l)
    ensures Ahead(c, s) == s && !AtLeaveOf(c, s) && Succ(c, depth, s) == Some(Ahead(c, s1))
  {
    hide Find;
  }

  /** Where the element-level machine cannot step, the other one cannot either. */
  lemma BothStop(n: Node, s: State)
    requires WellFormed(n, false) && Agrees(Compile(n), s) && Step(Compile(n), s) == None
    ensures Ahead(Compile(n), s) == s && (!AtLeaveOf(Compile(n), s) ==> Succ(Compile(n), Recorded(n), s) == None)
  {
    hide Compile, Fold, Find, WellFormed, Recorded, Depth, AdjustsDown;
    var c := Compile(n);
    if c[s.pc].Adj? && c[s.pc].emits {
      CompiledAdjusts(n);
      AdjustKnown(c, s.pc);
    }
  }

  /** A run of the element-level machine to leave is a result. */
  lemma {:induction false} RunGives(n: Node, env: Env, i: nat, s: State, m: nat, t: State)
    requires WellFormed(n, false) && Steps(Compile(n), Start(env), i) == Some(s)
    requires Steps(Compile(n), s, m) == Some(t) && AtLeaveOf(Compile(n), t)
    ensures s.pc <= |Compile(n)| && Gives(Compile(n), Recorded(n), Ahead(Compile(n), s), Final(t.stack, t.env))
    decreases m
  {
    hide Compile, Step, WellFormed, Recorded, Succ, Gives, Agrees, AtLeaveOf;
    var c := Compile(n);
    Inside(n, env, i, s);
    if m == 0 {
      LeaveAhead(c, t);
      GivesHere(c, Recorded(n), t);
    } else {
      var s1 := Step(c, s).value;
      StepsAdd(c, Start(env), i, 1);
      OneStep(c, s);
      RunGives(n, env, i + 1, s1, m - 1, t);
      StepsAlike(n, s, s1);
      if !c[s.pc].L? { GivesStep(c, Recorded(n), s, Ahead(c, s1), Final(t.stack, t.env)); }
    }
  }

  lemma Inside(n: Node, env: Env, i: nat, s: State)
    requires WellFormed(n, false) && Steps(Compile(n), Start(env), i) == Some(s)
    ensures Agrees(Compile(n), s) && s.pc < |Compile(n)|
  {
    hide Compile, Steps, WellFormed, Depth;
    AlwaysAgrees(n, env, i, s);
  }

  lemma LeaveAhead(c: Code, s: State)
    requires AtLeaveOf(c, s)
    ensures Ahead(c, s) == s
  {
  }

  /** A result is a run of the element-level machine to leave. */
  lemma {:induction false} GivesRun(n: Node, env: Env, i: nat, s: State, m: nat, f: Final) returns (j: nat, t: State)
    requires WellFormed(n, false) && Steps(Compile(n), Start(env), i) == Some(s) && s.pc <= |Compile(n)|
    requires Result(Compile(n), Recorded(n), Ahead(Compile(n), s), m) == Some(f)
    ensures Steps(Compile(n), Start(env), j) == Some(t) && Step(Compile(n), t) == None && f == Final(t.stack, t.env)
    decreases m, |Compile(n)| - s.pc
  {
    hide Compile, Step, WellFormed, Recorded, Succ, Agrees, AtLeaveOf;
    var c := Compile(n);
    Inside(n, env, i, s);
    if Step(c, s).None? {
      BothStop(n, s);
      j, t := i, s;
    } else {
      var s1 := Step(c, s).value;
      StepsAdd(c, Start(env), i, 1);
      OneStep(c, s);
      Inside(n, env, i + 1, s1);
      StepsAlike(n, s, s1);
      j, t := GivesRun(n, env, i + 1, s1, if c[s.pc].L? then m else m - 1, f);
    }
  }

  /** However a compiled program has been rewritten, as long as results are kept it gives exactly what
      the tree means. */
  lemma RewrittenMeaning(n: Node, c': Code, env: Env, v: Value, env1: Env)
    requires WellFormed(n, false) && Same(Compile(n), c', Recorded(n))
    ensures Gives(c', Recorded(n), Begin(c', [], env), Final([v], env1))
            <==> exists fuel: nat :: Eval(n, env, fuel) == Some(Normal(v, env1))
  {
    hide Compile, Step, WellFormed, Recorded, Succ, Eval, Result, Steps, After, Next;
    var c, s, f := Compile(n), Start(env), Final([v], env1);
    assert Begin(c, [], env) == Ahead(c, s);
    assert Gives(c', Recorded(n), Begin(c', [], env), f) <==> Gives(c, Recorded(n), Ahead(c, s), f);
    assert Steps(c, s, 0) == Some(s) by { NoSteps(c, s); }
    if fuel: nat :| Eval(n, env, fuel) == Some(Normal(v, env1)) {
      var m := Preserves(n, env, fuel);
      var t := State(|c| - 1, [v], env1);
      AfterPrefix(c, s, m, m);
      LeaveLast(n, t);
      RunGives(n, env, 0, s, m, t);
    }
    if Gives(c, Recorded(n), Ahead(c, s), f) {
      var m: nat :| Result(c, Recorded(n), Ahead(c, s), m) == Some(f);
      var j, t := GivesRun(n, env, 0, s, m, f);
      Computes(n, env, j, t);
      assert Eval(n, env, j + 1) == Some(Normal(v, env1));
    }
  }

  lemma NoSteps(c: Code, s: State)
    ensures Steps(c, s, 0) == Some(s)
  {
  }

  lemma LeaveLast(n: Node, t: State)
    requires t.pc == |Compile(n)| - 1
    ensures AtLeaveOf(Compile(n), t)
  {
  }

  /** After iseq_optimize the list of a program gives exactly what the tree means, provided no call of it
      merged a jump that something led to with the branch in front. */
  lemma PassMeaning(n: Node, env: Env, v: Value, env1: Env)
    requires WellFormed(n, false) && Clean(Compile(n), 0)
    ensures var c' := PassFrom(Compile(n), 0);
            Gives(c', Recorded(n), Begin(c', [], env), Final([v], env1))
            <==> exists fuel: nat :: Eval(n, env, fuel) == Some(Normal(v, env1))
  {
    hide Compile, WellFormed, Recorded, Eval, PassFrom, Clean, Same, Gives, Sealed;
    CompileSealed(n);
    PassSame(Compile(n), 0, Recorded(n));
    RewrittenMeaning(n, PassFrom(Compile(n), 0), env, v, env1);
  }

  /** Which it never does on the list of a tidy tree. */
  lemma TidyMeaning(n: Node, env: Env, v: Value, env1: Env)
    requires WellFormed(n, false) && Tidy(n)
    ensures var c' := PassFrom(Compile(n), 0);
            Gives(c', Recorded(n), Begin(c', [], env), Final([v], env1))
            <==> exists fuel: nat :: Eval(n, env, fuel) == Some(Normal(v, env1))
  {
    hide Compile, WellFormed, Recorded, Eval, PassFrom, Clean, AllEnd, Gives, Tidy;
    TidyPass(n);
    PassMeaning(n, env, v, env1);
  }
}
