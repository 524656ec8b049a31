/** What the words of an optimised and linked program compute. */
module Relinked {
  import opened Nodes
  import opened Options
  import opened Lowering
  import opened Depths
  import opened Machine
  import opened Meaning
  import opened Linking
  import opened Emission
  import opened WordMachine
  import opened Peephole
  import opened OptimizePass
  import opened Optimized
  import NeatLists
  import TidyTrees
  import opened Levels
  import opened LevelPass
  import opened Relinking

  // ----- runs of a level list -----

  /** No adjustment the run comes to pops anything. */
  ghost predicate QuietRun(c: Code, s0: State) {
    forall m: nat, s :: Steps(c, s0, m) == Some(s) ==> Quiet(c, s)
  }

  lemma CalmRun(c: Code, s0: State)
    requires Calm(c)
    ensures QuietRun(c, s0)
  {
    hide Steps, Depth;
  }

  lemma QuietAt(c: Code, s0: State, m: nat, s: State)
    requires QuietRun(c, s0) && Steps(c, s0, m) == Some(s)
    ensures Quiet(c, s)
  {
    hide Steps, Quiet;
  }

  lemma NextState(c: Code, s0: State, m: nat, s: State)
    requires Steps(c, s0, m) == Some(s)
    ensures Steps(c, s0, m + 1) == Step(c, s)
  {
    hide Step;
    StepsAdd(c, s0, m, 1);
    OneStep(c, s);
  }

  lemma {:induction false} Stays(c: Code, h: Heights, s0: State, m: nat, s: State)
    requires Sealed(c) && Leveled(c, h) && Upright(c, h, s0) && Steps(c, s0, m) == Some(s)
    ensures Upright(c, h, s)
    decreases m
  {
    hide Sealed, Leveled, Upright, Quiet, Step, Succ, Deep, AtLeaveOf;
    if m > 0 {
      var u := Before(c, s0, m, s);
      Stays(c, h, s0, m - 1, u);
      SteppingQuiet(c, h, u);
      UprightStep(c, h, u);
    }
  }

  /** An adjustment that would pop something stops the run: there is nothing on the stack. */
  lemma LoudStops(c: Code, h: Heights, s: State)
    requires Leveled(c, h) && Upright(c, h, s) && !Quiet(c, s)
    ensures Step(c, s) == None && !AtLeaveOf(c, s) && s.stack == []
  {
    hide Level, Real, Depth, CutOff;
    LevelHere(c, h, s.pc);
    AdjustRest(c, s.pc);
  }

  lemma SteppingQuiet(c: Code, h: Heights, s: State)
    requires Leveled(c, h) && Upright(c, h, s) && Step(c, s).Some?
    ensures Quiet(c, s)
  {
    hide Leveled, Upright, Quiet, Step, AtLeaveOf;
    if !Quiet(c, s) { LoudStops(c, h, s); }
  }

  lemma {:induction false} Before(c: Code, s0: State, m: nat, s: State) returns (u: State)
    requires m > 0 && Steps(c, s0, m) == Some(s)
    ensures Steps(c, s0, m - 1) == Some(u) && Step(c, u) == Some(s)
    decreases m
  {
    hide Step;
    var s1 := Step(c, s0).value;
    if m == 1 { u := s0; } else { u := Before(c, s1, m - 1, s); }
  }

  /** A run to leave is a result. */
  lemma {:induction false} RunResult(c: Code, h: Heights, s0: State, i: nat, s: State, m: nat, t: State)
    requires Sealed(c) && Leveled(c, h) && Upright(c, h, s0)
    requires Steps(c, s0, i) == Some(s) && s.pc <= |c| && Steps(c, s, m) == Some(t) && AtLeaveOf(c, t)
    ensures Gives(c, h, Optimized.Ahead(c, s), Final(t.stack, t.env))
    decreases m
  {
    hide Sealed, Leveled, Upright, Quiet, Step, Succ, Gives, AtLeaveOf, Deep;
    if m == 0 {
      LeaveAhead(c, t);
      GivesHere(c, h, t);
    } else {
      var s1 := Step(c, s).value;
      Stays(c, h, s0, i, s);
      SteppingQuiet(c, h, s);
      UprightStep(c, h, s);
      NextState(c, s0, i, s);
      InList(c, h, s);
      InList(c, h, s1);
      RunResult(c, h, s0, i + 1, s1, m - 1, t);
      if !c[s.pc].L? { GivesStep(c, h, s, Optimized.Ahead(c, s1), Final(t.stack, t.env)); }
    }
  }

  lemma InList(c: Code, h: Heights, s: State)
    requires Upright(c, h, s)
    ensures s.pc < |c|
  {
  }

  /** A result is a run to leave. */
  lemma {:induction false} ResultRun(c: Code, h: Heights, s0: State, i: nat, s: State, m: nat, f: Final)
    returns (j: nat, t: State)
    requires Sealed(c) && Leveled(c, h) && Upright(c, h, s0) && QuietRun(c, s0)
    requires Steps(c, s0, i) == Some(s) && s.pc <= |c| && Result(c, h, Optimized.Ahead(c, s), m) == Some(f)
    ensures Steps(c, s0, j) == Some(t) && AtLeaveOf(c, t) && f == Final(t.stack, t.env)
    decreases m, |c| - s.pc
  {
    hide Sealed, Leveled, Upright, Quiet, Step, Succ, Deep;
    Stays(c, h, s0, i, s);
    UprightStep(c, h, s);
    InList(c, h, s);
    if Step(c, s).None? {
      LeaveAhead(c, s);
      j, t := i, s;
    } else {
      var s1 := Step(c, s).value;
      NextState(c, s0, i, s);
      InList(c, h, s1);
      j, t := ResultRun(c, h, s0, i + 1, s1, if c[s.pc].L? then m else m - 1, f);
    }
  }

  lemma AtStart(c: Code, h: Heights, env: Env)
    requires Sealed(c)
    ensures Upright(c, h, Start(env)) && Optimized.Ahead(c, Start(env)) == Begin(c, [], env)
    ensures Flat(c, Start(env)) == Start(env) && Steps(c, Start(env), 0) == Some(Start(env))
  {
  }

  /** What the run from env ends with at leave. */
  ghost predicate Ends(c: Code, env: Env, f: Final) {
    exists m: nat, t :: Steps(c, Start(env), m) == Some(t) && AtLeaveOf(c, t) && f == Final(t.stack, t.env)
  }

  /** A level list gives what its runs end with, and with quiet adjustments nothing else. */
  lemma GivesExactly(c: Code, h: Heights, env: Env, f: Final)
    requires Sealed(c) && Leveled(c, h)
    ensures Ends(c, env, f) ==> Gives(c, h, Begin(c, [], env), f)
    ensures QuietRun(c, Start(env)) && Gives(c, h, Begin(c, [], env), f) ==> Ends(c, env, f)
  {
    hide Sealed, Leveled, Upright, QuietRun, Steps, Result, AtLeaveOf;
    var s := Start(env);
    AtStart(c, h, env);
    if QuietRun(c, s) && Gives(c, h, Begin(c, [], env), f) {
      var m: nat :| Result(c, h, Begin(c, [], env), m) == Some(f);
      var j, t := ResultRun(c, h, s, 0, s, m, f);
    }
    if m: nat, t :| Steps(c, s, m) == Some(t) && AtLeaveOf(c, t) && f == Final(t.stack, t.env) {
      RunResult(c, h, s, 0, s, m, t);
    }
  }

  /** A level list stops nowhere but at leave exactly when no adjustment its run comes to pops anything: there is
      nothing on the stack for one to pop. */
  lemma StuckExactly(c: Code, h: Heights, s0: State)
    requires Sealed(c) && Leveled(c, h) && Upright(c, h, s0)
    ensures QuietRun(c, s0) <==>
            forall m: nat, s :: Steps(c, s0, m) == Some(s) && Step(c, s) == None ==> AtLeaveOf(c, s)
  {
    hide Sealed, Leveled, Upright, Quiet, Step, Steps, Succ, AtLeaveOf, Deep;
    if QuietRun(c, s0) {
      forall m: nat, s | Steps(c, s0, m) == Some(s) && Step(c, s) == None ensures AtLeaveOf(c, s) {
        Stays(c, h, s0, m, s);
        UprightStep(c, h, s);
      }
    } else {
      var m: nat, s :| Steps(c, s0, m) == Some(s) && !Quiet(c, s);
      var k, t := FirstLoud(c, h, s0, m, s);
      LoudStops(c, h, t);
    }
  }

  /** The first adjustment on the way that would pop something. */
  lemma {:induction false} FirstLoud(c: Code, h: Heights, s0: State, m: nat, s: State) returns (k: nat, t: State)
    requires Sealed(c) && Leveled(c, h) && Upright(c, h, s0) && Steps(c, s0, m) == Some(s) && !Quiet(c, s)
    ensures Steps(c, s0, k) == Some(t) && Upright(c, h, t) && !Quiet(c, t)
    decreases m
  {
    hide Sealed, Leveled, Upright, Quiet, Step, Succ, AtLeaveOf, Deep;
    if !Quiet(c, s0) {
      k, t := 0, s0;
    } else if m > 0 {
      UprightStep(c, h, s0);
      k, t := FirstLoud(c, h, Step(c, s0).value, m - 1, s);
      k := k + 1;
    }
  }

  // ----- the list as compiled -----

  /** In every state a compiled program reaches the stack is as deep as its place says, and adjustments pop
      nothing. */
  lemma {:induction false} CompiledQuiet(n: Node, env: Env, m: nat, s: State)
    requires WellFormed(n, false) && Steps(Compile(n), Start(env), m) == Some(s)
    ensures Upright(Compile(n), HeightsOf(n), s) && Quiet(Compile(n), s)
    decreases m
  {
    hide Compile, WellFormed, HeightsOf, Sealed, Leveled, Upright, Quiet, Step, Steps, Succ, Deep, Agrees;
    var c, h := Compile(n), HeightsOf(n);
    CompileSealed(n);
    CompileLevel(n);
    if m == 0 {
      AtStart(c, h, env);
      assert s == Start(env);
    } else {
      var u := Before(c, Start(env), m, s);
      CompiledQuiet(n, env, m - 1, u);
      UprightStep(c, h, u);
    }
    AlwaysAgrees(n, env, m, s);
    QuietHere(n, s);
  }

  lemma QuietHere(n: Node, s: State)
    requires WellFormed(n, false) && Upright(Compile(n), HeightsOf(n), s) && Agrees(Compile(n), s)
    ensures Quiet(Compile(n), s)
  {
    hide Compile, WellFormed, HeightsOf, Depth, AdjustsDown, Level, Real;
    var c, h := Compile(n), HeightsOf(n);
    if c[s.pc].Adj? && c[s.pc].emits {
      CompileLevel(n);
      LevelHere(c, h, s.pc);
      CompiledAdjusts(n);
      AdjustKnown(c, s.pc);
      AdjustRest(c, s.pc);
    }
  }

  /** With adjustments that cut to the ground a compiled program still gives what its tree means. */
  lemma TreeGives(n: Node, env: Env, v: Value, env1: Env)
    requires WellFormed(n, false)
    ensures Gives(Compile(n), HeightsOf(n), Begin(Compile(n), [], env), Final([v], env1))
            <==> exists fuel: nat :: Eval(n, env, fuel) == Some(Normal(v, env1))
  {
    hide Compile, WellFormed, HeightsOf, Sealed, Leveled, Gives, Step, Steps, Eval, After, Quiet, Upright;
    var c, h, s := Compile(n), HeightsOf(n), Start(env);
    CompileSealed(n);
    CompileLevel(n);
    forall m: nat, t | Steps(c, s, m) == Some(t) ensures Quiet(c, t) { CompiledQuiet(n, env, m, t); }
    GivesExactly(c, h, env, Final([v], env1));
    if fuel: nat :| Eval(n, env, fuel) == Some(Normal(v, env1)) {
      var m := Preserves(n, env, fuel);
      AfterPrefix(c, s, m, m);
      LeaveLast(n, State(|c| - 1, [v], env1));
    }
    if m: nat, t :| Steps(c, s, m) == Some(t) && AtLeaveOf(c, t) && Final([v], env1) == Final(t.stack, t.env) {
      assert Step(c, t) == None by { LeaveStops(c, t); }
      Computes(n, env, m, t);
      assert Eval(n, env, m + 1) == Some(Normal(v, env1));
    }
  }

  lemma LeaveStops(c: Code, t: State)
    requires AtLeaveOf(c, t)
    ensures Step(c, t) == None
  {
  }

  // ----- the list left by iseq_optimize -----

  function Rewritten(n: Node): Code { PassFrom(Compile(n), 0) }

  function RewrittenWords(n: Node): seq<Word> { Words(Rewritten(n), |Rewritten(n)|) }

  /** No call merged a jump that something led to, and the list left links. */
  ghost predicate Accepted(n: Node) {
    WellFormed(n, false) && Clean(Compile(n), 0) && Links(Rewritten(n))
  }

  /** And no adjustment that a run of it comes to pops anything. */
  ghost predicate Relinks(n: Node) {
    Accepted(n) && forall env :: QuietRun(Rewritten(n), Start(env))
  }

  lemma RewrittenShape(n: Node)
    requires WellFormed(n, false)
    ensures Sealed(Rewritten(n)) && Leveled(Rewritten(n), HeightsOf(n)) && NeatLists.Once(Rewritten(n))
    ensures Links(Rewritten(n)) <==> Downward(Rewritten(n))
  {
    hide Compile, WellFormed, HeightsOf, Sealed, Leveled, PassFrom, Links, Downward, NeatLists.Once;
    CompileSealed(n);
    CompileLevel(n);
    TidyTrees.CompileOnce(n);
    PassLevel(Compile(n), HeightsOf(n), 0);
    PassOnce(Compile(n), 0);
    LinksExactly(Rewritten(n));
  }

  lemma CalmLinks(c: Code)
    requires Calm(c)
    ensures Downward(c)
  {
    hide Depth;
  }

  /** That is so if each adjustment is linked to a jump by nothing. */
  lemma CalmRelinks(n: Node)
    requires WellFormed(n, false) && Clean(Compile(n), 0) && Calm(Rewritten(n))
    ensures Relinks(n)
  {
    hide Compile, Sealed, Leveled, Links, Downward, QuietRun, Clean, HeightsOf, Rewritten, Calm;
    RewrittenShape(n);
    CalmLinks(Rewritten(n));
    forall env ensures QuietRun(Rewritten(n), Start(env)) { CalmRun(Rewritten(n), Start(env)); }
  }

  /** The runs of the list left end with what the tree means, and with quiet adjustments all of that. */
  lemma RewrittenGives(n: Node, env: Env, v: Value, env1: Env)
    requires Accepted(n)
    ensures Ends(Rewritten(n), env, Final([v], env1)) ==>
            exists fuel: nat :: Eval(n, env, fuel) == Some(Normal(v, env1))
    ensures QuietRun(Rewritten(n), Start(env)) && (exists fuel: nat :: Eval(n, env, fuel) == Some(Normal(v, env1))) ==>
            Ends(Rewritten(n), env, Final([v], env1))
  {
    hide Compile, WellFormed, Sealed, Leveled, Gives, Ends, Eval, QuietRun, Clean, HeightsOf, PassFrom, Links;
    var c, c', h, f := Compile(n), Rewritten(n), HeightsOf(n), Final([v], env1);
    RewrittenShape(n);
    GivesExactly(c', h, env, f);
    TreeGives(n, env, v, env1);
    CompileSealed(n);
    PassSame(c, 0, h);
    SameGives(c, c', h, env, f);
    if fuel: nat :| Eval(n, env, fuel) == Some(Normal(v, env1)) {
      assert exists k: nat :: Eval(n, env, k) == Some(Normal(v, env1));
      assert Gives(c, h, Begin(c, [], env), f);
      assert Gives(c', h, Begin(c', [], env), f);
    }
  }

  lemma SameGives(c: Code, c': Code, h: Heights, env: Env, f: Final)
    requires Same(c, c', h)
    ensures Gives(c, h, Begin(c, [], env), f) <==> Gives(c', h, Begin(c', [], env), f)
  {
    hide Gives, Begin;
  }

  // ----- its words -----

  /** A run either stops, or goes on for as many words as one likes. */
  lemma StopOrWords(c: Code, h: Heights, s0: State, j: nat) returns (m: nat, s: State)
    requires Sealed(c) && Leveled(c, h) && Upright(c, h, s0) && Links(c) && s0.pc == 0
    ensures Steps(c, s0, m) == Some(s) && Upright(c, h, s) && (Step(c, s) == None || Count(c, s0, m) >= j)
  {
    hide Sealed, Leveled, Upright, Links, Step, Quiet, Count, Succ;
    var most := j * (|c| + 1) + |c|;
    if Steps(c, s0, most).Some? {
      m, s := most, Steps(c, s0, most).value;
      Progress(c, s0, most);
      Enough(j, Count(c, s0, most), |c| + 1, most);
    } else {
      m, s := LastStep(c, s0, most);
    }
    Stays(c, h, s0, m, s);
  }

  lemma {:induction false} LastStep(c: Code, s0: State, most: nat) returns (m: nat, s: State)
    requires Steps(c, s0, most).None?
    ensures Steps(c, s0, m) == Some(s) && Step(c, s).None?
    decreases most
  {
    hide Step;
    if Step(c, s0).None? {
      m, s := 0, s0;
    } else {
      m, s := LastStep(c, Step(c, s0).value, most - 1);
      m := m + 1;
    }
  }

  /** At leave the words stop too. */
  lemma WordsLeave(c: Code, s: State)
    requires AtLeaveOf(c, s)
    ensures WStep(Words(c, |c|), Flat(c, s)) == None
  {
    hide Words, Depth, Pos, Emit;
    Fetch(c, s.pc);
    EmitInsnIs(c, s.pc);
    var words, p := Words(c, |c|), Pos(c, s.pc);
    assert words[p + 0] == Emit(c, s.pc)[0];
  }

  /** At a place of the words that pops from the stack. */
  predicate AtAdjust(words: seq<Word>, t: State) {
    t.pc < |words| && words[t.pc] == Op(AdjustStackOp)
  }

  /** Where the list stops, the words do: at leave, or at an adjustment with nothing on the stack. */
  lemma WordsHalt(c: Code, h: Heights, s: State)
    requires Sealed(c) && Leveled(c, h) && Upright(c, h, s) && Links(c) && Step(c, s) == None
    ensures s.pc <= |c| && WStep(Words(c, |c|), Flat(c, s)) == None
    ensures if Quiet(c, s) then AtLeaveOf(c, s) else s.stack == [] && AtAdjust(Words(c, |c|), Flat(c, s))
  {
    hide Sealed, Leveled, Upright, Step, Words, WStep, Depth, Fine, Distinct, AtLeaveOf, AtAdjust;
    InList(c, h, s);
    if Quiet(c, s) {
      hide Quiet;
      UprightStep(c, h, s);
      WordsLeave(c, s);
    } else {
      LoudStops(c, h, s);
      assert Fine(c, s.pc);
      EmitAdjustIs(c, s.pc);
      AdjustHalts(c, s);
    }
  }

  lemma AdjustHalts(c: Code, s: State)
    requires s.pc < |c| && c[s.pc].Adj? && c[s.pc].emits && s.stack == []
    requires var down := Depth(c, s.pc).sp - Depth(c, s.pc + 1).sp;
             down > 0 && Emit(c, s.pc) == [Op(AdjustStackOp), Num(down)]
    ensures WStep(Words(c, |c|), Flat(c, s)) == None && AtAdjust(Words(c, |c|), Flat(c, s))
  {
    hide Words, Depth, Pos, Emit;
    Fetch(c, s.pc);
    var words, p := Words(c, |c|), Pos(c, s.pc);
    assert words[p + 0] == Emit(c, s.pc)[0] && words[p + 1] == Emit(c, s.pc)[1];
  }

  /** Two runs of the words that stop, stop in the same state. */
  lemma StopOnce(words: seq<Word>, s0: State, i: nat, t: State, j: nat, u: State)
    requires WSteps(words, s0, i) == Some(t) && WStep(words, t) == None
    requires WSteps(words, s0, j) == Some(u) && WStep(words, u) == None
    ensures t == u
  {
    hide WStep;
    if i < j {
      WStepsAdd(words, s0, i, j - i);
    } else if j < i {
      WStepsAdd(words, s0, j, i - j);
    }
  }

  /** If the words stop, then in the state the list stops in. */
  lemma WordsStop(c: Code, h: Heights, s0: State, j: nat, t: State) returns (m: nat, s: State)
    requires Sealed(c) && Leveled(c, h) && Upright(c, h, s0) && Links(c) && s0.pc == 0
    requires WSteps(Words(c, |c|), Flat(c, s0), j) == Some(t) && WStep(Words(c, |c|), t) == None
    ensures Steps(c, s0, m) == Some(s) && Upright(c, h, s) && Step(c, s) == None && s.pc <= |c| && t == Flat(c, s)
  {
    hide Sealed, Leveled, Upright, Links, Step, Quiet, AtLeaveOf, Count, Words, WStep, Deep, AtAdjust;
    var words, f0 := Words(c, |c|), Flat(c, s0);
    m, s := StopOrWords(c, h, s0, j + 1);
    InList(c, h, s);
    if Step(c, s) == None {
      Follow(c, s0, m, s);
      WordsHalt(c, h, s);
      StopOnce(words, f0, j, t, Count(c, s0, m), Flat(c, s));
    } else {
      WStepsAdd(words, f0, j, 1);
      assert WSteps(words, t, 1) == None;
      var _, _ := Backward(c, s0, m, j + 1);
      assert false;
    }
  }

  /** After j steps the words of the optimised program have stopped in t. */
  ghost predicate Stops(n: Node, env: Env, j: nat, t: State) {
    WSteps(RewrittenWords(n), Start(env), j) == Some(t) && WStep(RewrittenWords(n), t) == None
  }

  /** If the words of an optimised program stop, they stop with what the tree means, or else, on a run that is not
      quiet, at an adjustment that finds nothing to pop. */
  lemma RewrittenCompute(n: Node, env: Env, j: nat, t: State)
    requires Accepted(n) && Stops(n, env, j, t)
    ensures if QuietRun(Rewritten(n), Start(env))
            then |t.stack| == 1 && exists fuel: nat :: Eval(n, env, fuel) == Some(Normal(t.stack[0], t.env))
            else t.stack == [] && AtAdjust(RewrittenWords(n), t)
  {
    hide Compile, WellFormed, Sealed, Leveled, QuietRun, Links, Steps, Eval, Clean, HeightsOf, Rewritten, AtLeaveOf;
    hide WStep, WSteps, Words, Upright, Flat, Step, Quiet, Ends, AtAdjust;
    var c, h, s0 := Rewritten(n), HeightsOf(n), Start(env);
    RewrittenShape(n);
    AtStart(c, h, env);
    var m, s := WordsStop(c, h, s0, j, t);
    WordsHalt(c, h, s);
    if Quiet(c, s) {
      QuietToLeave(c, h, s0, m, s);
      OneValue(c, h, s);
      assert [t.stack[0]] == t.stack;
      EndsHere(c, env, m, s);
      RewrittenGives(n, env, t.stack[0], t.env);
    } else {
      if QuietRun(c, s0) { QuietAt(c, s0, m, s); }
      SameStack(c, s);
    }
  }

  lemma SameStack(c: Code, s: State)
    requires s.pc <= |c|
    ensures Flat(c, s).stack == s.stack && Flat(c, s).env == s.env
  {
    hide Pos;
  }

  lemma EndsHere(c: Code, env: Env, m: nat, s: State)
    requires Steps(c, Start(env), m) == Some(s) && AtLeaveOf(c, s)
    ensures Ends(c, env, Final(s.stack, s.env))
  {
    hide Steps, AtLeaveOf;
  }

  /** A run to leave comes to no adjustment that would pop anything. */
  lemma QuietToLeave(c: Code, h: Heights, s0: State, m: nat, s: State)
    requires Sealed(c) && Leveled(c, h) && Upright(c, h, s0) && Steps(c, s0, m) == Some(s) && AtLeaveOf(c, s)
    ensures QuietRun(c, s0)
  {
    hide Sealed, Leveled, Upright, Quiet, Step, Steps, AtLeaveOf;
    LeaveStops(c, s);
    forall k: nat, t | Steps(c, s0, k) == Some(t) ensures Quiet(c, t) {
      Stays(c, h, s0, k, t);
      if !Quiet(c, t) {
        LoudStops(c, h, t);
        SameStop(c, s0, m, s, k, t);
      }
    }
  }

  /** A run stops once. */
  lemma SameStop(c: Code, s0: State, m: nat, s: State, k: nat, t: State)
    requires Steps(c, s0, m) == Some(s) && Step(c, s) == None && Steps(c, s0, k) == Some(t) && Step(c, t) == None
    ensures s == t
  {
    hide Step, Steps;
    if m < k { StopsThere(c, s0, m, s, k); } else if k < m { StopsThere(c, s0, k, t, m); }
  }

  lemma OneValue(c: Code, h: Heights, s: State)
    requires Leveled(c, h) && Upright(c, h, s) && AtLeaveOf(c, s)
    ensures |s.stack| == 1 && Flat(c, s).stack == s.stack && Flat(c, s).env == s.env
  {
    hide Level, Real;
    LevelHere(c, h, s.pc);
  }

  /** On a quiet run the words stop with the tree's value if it has one. */
  lemma QuietWords(n: Node, env: Env, fuel: nat, v: Value, env1: Env) returns (j: nat, t: State)
    requires Accepted(n) && QuietRun(Rewritten(n), Start(env)) && Eval(n, env, fuel) == Some(Normal(v, env1))
    ensures Stops(n, env, j, t) && t.stack == [v] && t.env == env1
  {
    hide Compile, WellFormed, Sealed, Leveled, QuietRun, Links, Steps, Eval, Clean, HeightsOf, Rewritten, AtLeaveOf;
    hide WStep, WSteps, Words, Count;
    var c, s0 := Rewritten(n), Start(env);
    RewrittenShape(n);
    AtStart(c, HeightsOf(n), env);
    RewrittenGives(n, env, v, env1);
    var m: nat, s :| Steps(c, s0, m) == Some(s) && AtLeaveOf(c, s) && Final([v], env1) == Final(s.stack, s.env);
    LeaveInList(c, s);
    Follow(c, s0, m, s);
    WordsLeave(c, s);
    j, t := Count(c, s0, m), Flat(c, s);
  }

  lemma LeaveInList(c: Code, s: State)
    requires AtLeaveOf(c, s)
    ensures s.pc < |c|
  {
  }

  /** On a run that is not quiet the words stop. */
  lemma LoudWords(n: Node, env: Env) returns (j: nat, t: State)
    requires Accepted(n) && !QuietRun(Rewritten(n), Start(env))
    ensures Stops(n, env, j, t)
  {
    hide Compile, WellFormed, Sealed, Leveled, Links, Steps, Clean, HeightsOf, Rewritten, Upright, Quiet, Step;
    hide WStep, WSteps, Words, Count, AtLeaveOf, AtAdjust;
    var c, h, s0 := Rewritten(n), HeightsOf(n), Start(env);
    RewrittenShape(n);
    AtStart(c, h, env);
    var m: nat, s :| Steps(c, s0, m) == Some(s) && !Quiet(c, s);
    Stays(c, h, s0, m, s);
    LoudStops(c, h, s);
    InList(c, h, s);
    Follow(c, s0, m, s);
    WordsHalt(c, h, s);
    j, t := Count(c, s0, m), Flat(c, s);
  }

  /** If the tree has a value, the words stop: with it, or else, on a run that is not quiet, at such an
      adjustment. */
  lemma RewrittenReach(n: Node, env: Env, fuel: nat, v: Value, env1: Env) returns (j: nat, t: State)
    requires Accepted(n) && Eval(n, env, fuel) == Some(Normal(v, env1))
    ensures Stops(n, env, j, t)
    ensures if QuietRun(Rewritten(n), Start(env)) then t.stack == [v] && t.env == env1
            else t.stack == [] && AtAdjust(RewrittenWords(n), t)
  {
    hide Accepted, QuietRun, Eval, Rewritten, Stops, RewrittenWords, AtAdjust;
    if QuietRun(Rewritten(n), Start(env)) {
      j, t := QuietWords(n, env, fuel, v, env1);
    } else {
      j, t := LoudWords(n, env);
      RewrittenCompute(n, env, j, t);
    }
  }

  /** They run for ever exactly when the run is quiet and no amount of fuel evaluates the tree. */
  lemma RewrittenForever(n: Node, env: Env)
    requires Accepted(n)
    ensures (forall j: nat :: WSteps(RewrittenWords(n), Start(env), j).Some?) <==>
            QuietRun(Rewritten(n), Start(env)) && forall fuel: nat :: Eval(n, env, fuel).None?
  {
    hide Accepted, Eval, QuietRun, RewrittenWords, Rewritten, WStep, AtAdjust;
    var words, s0 := RewrittenWords(n), Start(env);
    if !QuietRun(Rewritten(n), Start(env)) {
      var j, t := LoudWords(n, env);
      StoppedAfter(words, s0, j, t);
    } else if fuel: nat :| Eval(n, env, fuel).Some? {
      ValueOf(n, env, fuel);
      var o := Eval(n, env, fuel).value;
      var j, t := RewrittenReach(n, env, fuel, o.v, o.env);
      StoppedAfter(words, s0, j, t);
    } else if j: nat :| WSteps(words, s0, j).None? {
      var i, t := LastWords(words, s0, j);
      RewrittenCompute(n, env, i, t);
      assert false;
    }
  }

  lemma ValueOf(n: Node, env: Env, fuel: nat)
    requires Accepted(n) && Eval(n, env, fuel).Some?
    ensures Eval(n, env, fuel).value.Normal?
  {
    hide WellFormed, Eval, Clean, Links, Rewritten, Compile;
    NoBreakEscapes(n, env, fuel);
  }

  lemma StoppedAfter(words: seq<Word>, s0: State, j: nat, t: State)
    requires WSteps(words, s0, j) == Some(t) && WStep(words, t) == None
    ensures WSteps(words, s0, j + 1).None?
  {
    hide WStep;
    WStepsAdd(words, s0, j, 1);
    assert WSteps(words, t, 1) == None;
  }

  predicate Shows(t: State, v: Value, env1: Env) {
    t.stack == [v] && t.env == env1
  }

  /** With some fuel the tree evaluates to v and env1. */
  ghost predicate Means(n: Node, env: Env, v: Value, env1: Env) {
    exists fuel: nat :: Eval(n, env, fuel) == Some(Normal(v, env1))
  }

  /** The words give what the tree means: wherever they stop it is its value, and where it has one they stop. */
  ghost predicate Right(n: Node, env: Env) {
    && (forall j: nat, t :: Stops(n, env, j, t) ==> |t.stack| == 1 && Means(n, env, t.stack[0], t.env))
    && (forall v, env1 :: Means(n, env, v, env1) ==> exists j: nat, t :: Stops(n, env, j, t) && Shows(t, v, env1))
  }

  /** They do exactly on the runs where no adjustment has anything to pop. */
  lemma RightExactly(n: Node, env: Env)
    requires Accepted(n)
    ensures Right(n, env) <==> QuietRun(Rewritten(n), Start(env))
  {
    hide Accepted, Eval, QuietRun, Stops, RewrittenWords, Rewritten, AtAdjust;
    if QuietRun(Rewritten(n), Start(env)) {
      forall j: nat, t | Stops(n, env, j, t) ensures |t.stack| == 1 && Means(n, env, t.stack[0], t.env) {
        RewrittenCompute(n, env, j, t);
      }
      forall v, env1 | Means(n, env, v, env1)
        ensures exists j: nat, t :: Stops(n, env, j, t) && Shows(t, v, env1)
      {
        var fuel: nat :| Eval(n, env, fuel) == Some(Normal(v, env1));
        var j, t := RewrittenReach(n, env, fuel, v, env1);
        assert Shows(t, v, env1);
      }
    } else {
      var j, t := LoudWords(n, env);
      RewrittenCompute(n, env, j, t);
    }
  }

  /** So for all variables exactly where every run is quiet. */
  lemma RelinksExactly(n: Node)
    requires Accepted(n)
    ensures Relinks(n) <==> forall env :: Right(n, env)
  {
    hide Accepted, Right, QuietRun, Rewritten;
    forall env ensures Right(n, env) <==> QuietRun(Rewritten(n), Start(env)) { RightExactly(n, env); }
  }

  lemma {:induction false} LastWords(words: seq<Word>, s0: State, most: nat) returns (j: nat, t: State)
    requires WSteps(words, s0, most).None?
    ensures WSteps(words, s0, j) == Some(t) && WStep(words, t).None?
    decreases most
  {
    hide WStep;
    if WStep(words, s0).None? {
      j, t := 0, s0;
    } else {
      j, t := LastWords(words, WStep(words, s0).value, most - 1);
      j := j + 1;
    }
  }

  /** In every state they reach, also on the way to such an adjustment, the stack stays within the stack_max
      linking computes for them. */
  lemma RewrittenWithin(n: Node, env: Env, j: nat, t: State)
    requires WellFormed(n, false) && Links(Rewritten(n)) && WSteps(RewrittenWords(n), Start(env), j) == Some(t)
    ensures |t.stack| <= Peak(Rewritten(n), |Rewritten(n)|)
  {
    hide Compile, WellFormed, Sealed, Leveled, Links, Steps, HeightsOf, Rewritten, AtLeaveOf, AtAdjust;
    hide WStep, Step, Words, Count, Upright, Quiet, Depth, Deep, Peak;
    var c, h, s0 := Rewritten(n), HeightsOf(n), Start(env);
    var words := Words(c, |c|);
    RewrittenShape(n);
    AtStart(c, h, env);
    var m, s := StopOrWords(c, h, s0, j);
    if Count(c, s0, m) < j {
      var i := Count(c, s0, m);
      InList(c, h, s);
      Follow(c, s0, m, s);
      WordsHalt(c, h, s);
      WStepsAdd(words, s0, i, j - i);
      assert false;
    }
    var i, s1 := Backward(c, s0, m, j);
    Stays(c, h, s0, i, s1);
    UprightWithin(c, h, s1);
  }

  lemma UprightWithin(c: Code, h: Heights, s: State)
    requires Leveled(c, h) && Upright(c, h, s)
    ensures |s.stack| <= Depth(c, s.pc).sp <= Peak(c, |c|)
  {
    hide Level, Real, Depth, Peak;
    NeverBelow(c, h, s.pc);
    BelowPeak(c, s.pc, 0);
    PeakGrows(c, s.pc, |c|);
  }

  // ----- compiling, optimising and linking -----

  /** Builds the words of a program on whose list the optimiser returns. Linking refuses only an adjustment that
      would have to push; no run of words it has linked exceeds stack_max. */
  method Build(n: Node) returns (status: Status, words: array<Word>, stackMax: int)
    requires WellFormed(n, false) && AllEnd(Compile(n), 0)
    ensures status == Linked <==> Downward(Rewritten(n))
    ensures status == Linked ==> words[..] == RewrittenWords(n)
    ensures status == Linked ==>
              forall env, j: nat :: WSteps(RewrittenWords(n), Start(env), j).Some? ==>
                |WSteps(RewrittenWords(n), Start(env), j).value.stack| <= stackMax
  {
    hide Compile, WellFormed, Sealed, PassFrom, AllEnd, Fine, Words, Peak, Linking.Table, WStep, WSteps, Links;
    hide Downward, Leveled, NeatLists.Once, HeightsOf, Distinct;
    var code := CompileProgram(n);
    var list := new Anchor();
    list.elems := code;
    CompileSealed(n);
    IseqOptimize(list);
    RewrittenShape(n);
    FinesLink(list.elems);
    var linker := new Linker();
    status := linker.SetSequence(list.elems);
    words, stackMax := linker.words, linker.stackMax;
    if status == Linked {
      forall env, j: nat | WSteps(RewrittenWords(n), Start(env), j).Some?
        ensures |WSteps(RewrittenWords(n), Start(env), j).value.stack| <= stackMax
      {
        RewrittenWithin(n, env, j, WSteps(RewrittenWords(n), Start(env), j).value);
      }
    }
  }

  lemma FinesLink(c: Code)
    requires NeatLists.Once(c)
    ensures Distinct(c) && (Links(c) <==> forall q :: 0 <= q < |c| ==> Fine(c, q))
  {
    hide NeatLists.Once, Fine, Defs;
    forall l: nat ensures Defs(c, l) <= 1 { OnceDefs(c, l); }
  }
}
