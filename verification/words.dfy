/** The machine that runs linked words does what the list machine does, so what a compiled and linked
    program computes is what its tree means, within stack_max. */
module WordMachine {
  import opened Nodes
  import opened Options
  import opened Lowering
  import opened Depths
  import opened Machine
  import opened Meaning
  import opened Linking
  import opened Emission

  // ----- the machine -----

  /** An instruction without operand. */
  function Simply(op: Opcode, s: State): Option<State> {
    var top := |s.stack| - 1;
    match op
    case PutNilOp => Some(State(s.pc + 1, s.stack + [NilV], s.env))
    case PopOp => if top < 0 then None else Some(State(s.pc + 1, s.stack[..top], s.env))
    case DupOp => if top < 0 then None else Some(State(s.pc + 1, s.stack + [s.stack[top]], s.env))
    case _ => None
  }

  /** Control goes on d words behind a two-word instruction. */
  function Hop(s: State, d: int, stack: seq<Value>): Option<State> {
    if s.pc + 2 + d < 0 then None else Some(State(s.pc + 2 + d, stack, s.env))
  }

  /** An instruction with operand w. */
  function With(op: Opcode, w: Word, s: State): Option<State> {
    var top := |s.stack| - 1;
    match op
    case PutObjectOp => if w.Object? then Some(State(s.pc + 2, s.stack + [w.v], s.env)) else None
    case GetLocalOp =>
      if w.Num? && w.n >= 0 then Some(State(s.pc + 2, s.stack + [Get(s.env, w.n)], s.env)) else None
    case SetLocalOp =>
      if w.Num? && w.n >= 0 && top >= 0 then Some(State(s.pc + 2, s.stack[..top], s.env[w.n := s.stack[top]])) else None
    case JumpOp => if w.Num? then Hop(s, w.n, s.stack) else None
    case BranchIfOp =>
      if w.Num? && top >= 0 then Hop(s, if Truthy(s.stack[top]) then w.n else 0, s.stack[..top]) else None
    case BranchUnlessOp =>
      if w.Num? && top >= 0 then Hop(s, if Truthy(s.stack[top]) then 0 else w.n, s.stack[..top]) else None
    case AdjustStackOp =>
      if w.Num? && 0 <= w.n <= |s.stack| then Some(State(s.pc + 2, s.stack[..|s.stack| - w.n], s.env)) else None
    case _ => None
  }

  function WStep(words: seq<Word>, s: State): Option<State> {
    if s.pc >= |words| || !words[s.pc].Op? then None
    else
      var op := words[s.pc].op;
      if op.PutNilOp? || op.PopOp? || op.DupOp? || op.LeaveOp? then Simply(op, s)
      else if s.pc + 1 >= |words| then None
      else With(op, words[s.pc + 1], s)
  }

  function WSteps(words: seq<Word>, s: State, j: nat): Option<State>
    decreases j
  {
    if j == 0 then Some(s)
    else match WStep(words, s)
      case None => None
      case Some(s1) => WSteps(words, s1, j - 1)
  }

  lemma {:induction false} WStepsAdd(words: seq<Word>, s: State, j: nat, i: nat)
    requires WSteps(words, s, j).Some?
    ensures WSteps(words, s, j + i) == WSteps(words, WSteps(words, s, j).value, i)
    decreases j
  {
    hide WStep;
    if j > 0 { WStepsAdd(words, WStep(words, s).value, j - 1, i); }
  }

  // ----- one step -----

  /** The whole list links. */
  ghost predicate Links(code: Code) {
    Distinct(code) && forall q :: 0 <= q < |code| ==> Fine(code, q)
  }

  /** The place in the words of a place in the list. */
  function Flat(code: Code, s: State): State
    requires s.pc <= |code|
  {
    State(Pos(code, s.pc), s.stack, s.env)
  }

  lemma {:induction false} TargetPlaced(code: Code, l: nat)
    requires Defs(code, l) > 0
    ensures Land(code, l) <= |code| && Pos(code, Land(code, l)) == Pos(code, Find(code, l))
  {
    FindPlaced(code, l);
  }

  /** The words of the element at hand. */
  lemma Fetch(code: Code, q: nat)
    requires q < |code|
    ensures var words, p := Words(code, |code|), Pos(code, q);
            && p + Width(code[q]) <= |words| && |Emit(code, q)| == Width(code[q])
            && (forall j :: 0 <= j < Width(code[q]) ==> words[p + j] == Emit(code, q)[j])
            && Pos(code, q + 1) == p + Width(code[q])
  {
    hide Emit, Words, Depth, Width;
    EmitWidth(code, q);
    WordsAt(code, q, |code|);
    var words, p := Words(code, |code|), Pos(code, q);
    forall j | 0 <= j < Width(code[q]) ensures words[p + j] == Emit(code, q)[j] {
      assert words[p..p + Width(code[q])][j] == words[p + j];
    }
  }

  /** Each offset operand leads to its label: one step of the list is one step of the words, or none
      for an element that emits nothing. */
  lemma StepRefines(code: Code, s: State, s1: State)
    requires Links(code) && Step(code, s) == Some(s1)
    ensures s.pc < |code| && s1.pc <= |code|
    ensures if Width(code[s.pc]) == 0 then s1.pc == s.pc + 1 && Flat(code, s1) == Flat(code, s)
            else WStep(Words(code, |code|), Flat(code, s)) == Some(Flat(code, s1))
  {
    assert Fine(code, s.pc);
    hide Words, Depth, Find, Defs, Distinct, Fine, WStep, Exec;
    match code[s.pc]
    case I(i) => InsnRefines(code, s, s1);
    case L(_) => Fetch(code, s.pc);
    case Adj(l, emits) => AdjustRefines(code, s, s1);
  }

  lemma AdjustRefines(code: Code, s: State, s1: State)
    requires s.pc < |code| && code[s.pc].Adj? && Fine(code, s.pc) && Step(code, s) == Some(s1)
    ensures s1.pc == s.pc + 1
    ensures if Width(code[s.pc]) == 0 then Flat(code, s1) == Flat(code, s)
            else WStep(Words(code, |code|), Flat(code, s)) == Some(Flat(code, s1))
  {
    hide Words, Depth, Find, Defs, Pos, Emit;
    Fetch(code, s.pc);
    if code[s.pc].emits {
      var words, p := Words(code, |code|), Pos(code, s.pc);
      var down := Depth(code, s.pc).sp - Depth(code, s.pc + 1).sp;
      AdjustStep(code, s, s1);
      EmitAdjustIs(code, s.pc);
      assert words[p + 0] == Emit(code, s.pc)[0] && words[p + 1] == Emit(code, s.pc)[1];
      if down == 0 { assert s1.stack == s.stack; }
    }
  }

  lemma AdjustStep(code: Code, s: State, s1: State)
    requires s.pc < |code| && code[s.pc].Adj? && code[s.pc].emits && Step(code, s) == Some(s1)
    ensures var down := Depth(code, s.pc).sp - Depth(code, s.pc + 1).sp;
            0 <= |s.stack| - down <= |s.stack| && s1 == State(s.pc + 1, s.stack[..|s.stack| - down], s.env)
  {
    hide Depth;
    DepthNext(code, s.pc);
  }

  lemma EmitAdjustIs(code: Code, q: nat)
    requires q < |code| && code[q].Adj? && code[q].emits && Fine(code, q)
    ensures var down := Depth(code, q).sp - Depth(code, q + 1).sp;
            down >= 0 && Emit(code, q) == if down > 0 then [Op(AdjustStackOp), Num(down)] else [Op(JumpOp), Num(0)]
  {
    hide Depth;
  }

  lemma InsnRefines(code: Code, s: State, s1: State)
    requires s.pc < |code| && code[s.pc].I? && Fine(code, s.pc) && Step(code, s) == Some(s1)
    ensures s1.pc <= |code| && WStep(Words(code, |code|), Flat(code, s)) == Some(Flat(code, s1))
  {
    hide Words, Depth, Find, Defs, Pos, Emit;
    Fetch(code, s.pc);
    var i, words, p := code[s.pc].insn, Words(code, |code|), Pos(code, s.pc);
    EmitInsnIs(code, s.pc);
    assert words[p + 0] == Emit(code, s.pc)[0];
    if Width(code[s.pc]) == 2 { assert words[p + 1] == Emit(code, s.pc)[1]; }
    if Target(i).Some? {
      TargetPlaced(code, Target(i).value);
      JumpRefines(code, s, s1, words, i, Target(i).value);
    } else {
      PlainRefines(s, s1, words, p, i, code);
    }
  }

  lemma EmitInsnIs(code: Code, q: nat)
    requires q < |code| && code[q].I?
    ensures var i := code[q].insn;
            Emit(code, q) == if Target(i).Some?
                then [Op(Branching(i)), Num(Offset(code, q, Target(i).value))] else Plainly(i)
  {
  }

  lemma JumpRefines(code: Code, s: State, s1: State, words: seq<Word>, i: Insn, l: nat)
    requires s.pc < |code| && Target(i) == Some(l) && Exec(i, code, s) == Some(s1)
    requires Pos(code, s.pc) + 1 < |words| && Pos(code, s.pc + 1) == Pos(code, s.pc) + 2
    requires words[Pos(code, s.pc)] == Op(Branching(i)) && words[Pos(code, s.pc) + 1] == Num(Offset(code, s.pc, l))
    requires Land(code, l) <= |code| && Pos(code, Land(code, l)) == Pos(code, Find(code, l))
    ensures s1.pc <= |code| && WStep(words, Flat(code, s)) == Some(Flat(code, s1))
  {
    hide Pos, Find;
  }

  lemma PlainRefines(s: State, s1: State, words: seq<Word>, p: nat, i: Insn, code: Code)
    requires Target(i) == None && Exec(i, code, s) == Some(s1)
    requires p + |Plainly(i)| <= |words| && words[p] == Plainly(i)[0]
    requires (|Plainly(i)| == 2 ==> words[p + 1] == Plainly(i)[1])
    ensures s1.pc == s.pc + 1
    ensures WStep(words, State(p, s.stack, s.env)) == Some(State(p + |Plainly(i)|, s1.stack, s1.env))
  {
    hide Find;
  }

  // ----- whole runs -----

  /** How many of m steps of the list emit words. */
  function Count(code: Code, s: State, m: nat): nat
    decreases m
  {
    if m == 0 || Step(code, s).None? then 0
    else (if Width(code[s.pc]) > 0 then 1 else 0) + Count(code, Step(code, s).value, m - 1)
  }

  lemma {:induction false} Follow(code: Code, s: State, m: nat, s1: State)
    requires Links(code) && Steps(code, s, m) == Some(s1) && s.pc <= |code|
    ensures s1.pc <= |code| && WSteps(Words(code, |code|), Flat(code, s), Count(code, s, m)) == Some(Flat(code, s1))
    decreases m
  {
    hide Words, Step, WStep, Links;
    if m > 0 {
      var s2 := Step(code, s).value;
      StepRefines(code, s, s2);
      Follow(code, s2, m - 1, s1);
    }
  }

  lemma NextMultiple(j: int, k: int)
    ensures (j + 1) * k == j * k + k
  {
  }

  /** Labels cannot stall the words: of any |code| + 1 steps in a row one emits. */
  lemma {:induction false} Progress(code: Code, s: State, m: nat)
    requires Links(code) && Steps(code, s, m).Some? && s.pc <= |code|
    ensures m <= Count(code, s, m) * (|code| + 1) + (|code| - s.pc)
    decreases m
  {
    hide Step, Links;
    if m > 0 {
      var s2 := Step(code, s).value;
      StepRefines(code, s, s2);
      Progress(code, s2, m - 1);
      NextMultiple(Count(code, s2, m - 1), |code| + 1);
    }
  }

  /** A state of the words comes from a state of the list. */
  lemma {:induction false} Backward(code: Code, s: State, m: nat, j: nat) returns (i: nat, s1: State)
    requires Links(code) && Steps(code, s, m).Some? && s.pc <= |code| && j <= Count(code, s, m)
    ensures i <= m && Steps(code, s, i) == Some(s1) && s1.pc <= |code|
    ensures WSteps(Words(code, |code|), Flat(code, s), j) == Some(Flat(code, s1))
    decreases m
  {
    hide Words, Step, WStep, Links;
    if j == 0 {
      i, s1 := 0, s;
    } else {
      var s2 := Step(code, s).value;
      StepRefines(code, s, s2);
      i, s1 := Backward(code, s2, m - 1, if Width(code[s.pc]) == 0 then j else j - 1);
      i := i + 1;
    }
  }

  // ----- compiled programs -----

  /** Linking never refuses a compiled program: every label it refers to is placed and no adjustment
      has to push. */
  lemma CompiledLinks(n: Node)
    requires WellFormed(n, false)
    ensures Links(Compile(n))
  {
    var code, r := Compile(n), Rec(0, map[]);
    hide Lower, Labels, WellFormed, Fold, Defs, Refs, Depth, AdjustsDown, Compile;
    forall l: nat ensures Defs(code, l) <= 1 { CompileLabels(n, l); }
    CompiledAdjusts(n);
    forall q | 0 <= q < |code| ensures Fine(code, q) {
      if code[q].I? && Target(code[q].insn).Some? {
        RefCounts(code, Target(code[q].insn).value, q);
        CompileLabels(n, Target(code[q].insn).value);
      } else if code[q].Adj? && code[q].emits {
        AdjustAt(code, q);
      }
    }
  }

  lemma CompiledAdjusts(n: Node)
    requires WellFormed(n, false)
    ensures AdjustsDown(Compile(n), Rec(0, map[]))
  {
    hide Lower, Labels, WellFormed, Fold, AdjustsDown;
    var c, r := Lower(n, false, NoLoop, 0), Rec(0, map[]);
    LinkLower(n, false, NoLoop, 0, r);
    Chain(c, [I(Leave)], r);
    One(I(Leave), Fold(c, r));
  }

  lemma AdjustAt(code: Code, q: nat)
    requires AdjustsDown(code, Rec(0, map[])) && q < |code| && code[q].Adj? && code[q].emits
    ensures Depth(code, q).sp >= Depth(code, q + 1).sp
  {
    assert code == code[..q] + code[q..];
    Chain(code[..q], code[q..], Rec(0, map[]));
    DepthNext(code, q);
    hide Fold;
    assert code[q..][0] == code[q];
  }

  /** What running the words of a compiled program amounts to. */
  function Program(n: Node): seq<Word> { Words(Compile(n), |Compile(n)|) }

  /** For every j, either the words run j steps, or the tree has a value and the words have stopped
      before, at their last word, with that value and the tree's variables. */
  lemma WordsRun(n: Node, env: Env, j: nat, fuel: nat) returns (i: nat, t: State)
    requires WellFormed(n, false) && fuel == j * (|Compile(n)| + 1) + |Compile(n)|
    ensures match Eval(n, env, fuel)
            case None => WSteps(Program(n), Start(env), j) == Some(t)
            case Some(Broke(_, _)) => false
            case Some(Normal(v, env1)) =>
              && t == State(|Program(n)| - 1, [v], env1)
              && WSteps(Program(n), Start(env), i) == Some(t) && WStep(Program(n), t) == None
  {
    hide Compile, Eval, WellFormed, After, Step, WStep, Links, Words;
    var code, s0 := Compile(n), Start(env);
    CompiledLinks(n);
    var m := Preserves(n, env, fuel);
    AfterPrefix(code, s0, m, m);
    var s1 := Steps(code, s0, m).value;
    assert Flat(code, s0) == s0;
    if Eval(n, env, fuel).None? {
      Progress(code, s0, m);
      Enough(j, Count(code, s0, m), |code| + 1, m);
      var _, s2 := Backward(code, s0, m, j);
      t := Flat(code, s2);
      i := j;
    } else {
      Follow(code, s0, m, s1);
      i := Count(code, s0, m);
      t := Flat(code, s1);
      LastWord(n, s1);
    }
  }

  lemma Enough(j: int, c: int, k: int, m: int)
    requires k > 0 && m >= j * k + k - 1 && m <= c * k + k - 1
    ensures j <= c
  {
    if c < j { NotEnough(j, c, k, m); }
  }

  /** The last word is leave. */
  lemma LastWord(n: Node, s: State)
    requires s.pc == |Compile(n)| - 1
    ensures Flat(Compile(n), s).pc == |Program(n)| - 1 && WStep(Program(n), Flat(Compile(n), s)) == None
  {
    var code := Compile(n);
    assert code[|code| - 1] == I(Leave);
    hide Compile, Words, Depth;
    Fetch(code, |code| - 1);
    WordsLength(code, |code|);
  }

  /** If a compiled and linked program stops, it is at its last word, and what is on the stack and in
      the variables is what the tree means. */
  lemma WordsCompute(n: Node, env: Env, j: nat, t: State)
    requires WellFormed(n, false) && WSteps(Program(n), Start(env), j) == Some(t) && WStep(Program(n), t) == None
    ensures t.pc == |Program(n)| - 1 && |t.stack| == 1
    ensures exists fuel: nat :: Eval(n, env, fuel) == Some(Normal(t.stack[0], t.env))
  {
    hide Compile, Eval, WellFormed, Program, WStep;
    var words, s0 := Program(n), Start(env);
    var fuel := (j + 1) * (|Compile(n)| + 1) + |Compile(n)|;
    var i, u := WordsRun(n, env, j + 1, fuel);
    WStepsAdd(words, s0, j, 1);
    assert WSteps(words, t, 1) == None;
    assert Eval(n, env, fuel).Some?;
    if i < j {
      WStepsAdd(words, s0, i, j - i);
    } else if j < i {
      WStepsAdd(words, s0, j, i - j);
    }
    assert t == u;
    assert Eval(n, env, fuel) == Some(Normal(t.stack[0], t.env));
  }

  /** It runs for ever exactly when no amount of fuel evaluates the tree. */
  lemma WordsForever(n: Node, env: Env)
    requires WellFormed(n, false)
    ensures (forall j: nat :: WSteps(Program(n), Start(env), j).Some?) <==>
            (forall fuel: nat :: Eval(n, env, fuel).None?)
  {
    hide Compile, Eval, WellFormed, Program, WStep;
    var words, s0 := Program(n), Start(env);
    if forall fuel: nat :: Eval(n, env, fuel).None? {
      forall j: nat ensures WSteps(words, s0, j).Some? {
        var fuel := j * (|Compile(n)| + 1) + |Compile(n)|;
        var _, _ := WordsRun(n, env, j, fuel);
      }
    } else {
      var fuel: nat :| Eval(n, env, fuel).Some?;
      AtLeast(fuel, |Compile(n)| + 1);
      var more := fuel * (|Compile(n)| + 1) + |Compile(n)|;
      FuelMonotone(n, env, fuel, more);
      var i, t := WordsRun(n, env, fuel, more);
      WStepsAdd(words, s0, i, 1);
      assert WSteps(words, t, 1) == None;
    }
  }

  lemma AtLeast(j: int, k: int)
    requires j >= 0 && k >= 1
    ensures j * k >= j
  {
  }

  /** The list runs long enough for so many steps of the words. */
  lemma EnoughSteps(n: Node, env: Env, j: nat) returns (m: nat)
    requires WellFormed(n, false) && WSteps(Program(n), Start(env), j).Some?
    ensures Steps(Compile(n), Start(env), m).Some? && j <= Count(Compile(n), Start(env), m)
  {
    hide Compile, Eval, WellFormed, WStep, Step, After, Links, Depth, Words;
    var code, s0 := Compile(n), Start(env);
    var fuel := j * (|code| + 1) + |code|;
    CompiledLinks(n);
    m := Preserves(n, env, fuel);
    AfterPrefix(code, s0, m, m);
    var s1 := Steps(code, s0, m).value;
    assert Flat(code, s0) == s0;
    if j > Count(code, s0, m) {
      Progress(code, s0, m);
      NotEnough(j, Count(code, s0, m), |code| + 1, m);
      Follow(code, s0, m, s1);
      LastWord(n, s1);
      WStepsAdd(Program(n), s0, Count(code, s0, m), j - Count(code, s0, m));
      assert false;
    }
  }

  /** In every state the words reach, the stack stays within the stack_max linking has computed. */
  lemma WithinStackMax(n: Node, env: Env, j: nat, t: State)
    requires WellFormed(n, false) && WSteps(Program(n), Start(env), j) == Some(t)
    ensures |t.stack| <= Peak(Compile(n), |Compile(n)|)
  {
    hide Compile, Eval, WellFormed, WStep, Step, Links, Depth, Words;
    var code, s0 := Compile(n), Start(env);
    CompiledLinks(n);
    var m := EnoughSteps(n, env, j);
    assert Flat(code, s0) == s0;
    var i, s := Backward(code, s0, m, j);
    AlwaysAgrees(n, env, i, s);
    BelowPeak(code, s.pc, 0);
    PeakGrows(code, s.pc, |code|);
  }

  lemma NotEnough(j: int, c: int, k: int, m: int)
    requires k > 0 && m <= c * k + k - 1 && c < j
    ensures m < j * k + k - 1
  {
    assert (c + 1) * k <= j * k;
    assert (c + 1) * k == c * k + k;
  }

  /** The list state in which the word at hand is carried out. */
  lemma {:induction false} Emitting(code: Code, s: State, m: nat, j: nat) returns (i: nat, s1: State)
    requires Links(code) && Steps(code, s, m).Some? && s.pc <= |code| && j < Count(code, s, m)
    ensures i < m && Steps(code, s, i) == Some(s1) && s1.pc < |code| && Width(code[s1.pc]) > 0
    ensures Step(code, s1).Some? && WSteps(Words(code, |code|), Flat(code, s), j) == Some(Flat(code, s1))
    decreases m
  {
    hide Words, Step, WStep, Links;
    var s2 := Step(code, s).value;
    StepRefines(code, s, s2);
    if j == 0 && Width(code[s.pc]) > 0 {
      i, s1 := 0, s;
    } else {
      i, s1 := Emitting(code, s2, m - 1, if Width(code[s.pc]) == 0 then j else j - 1);
      i := i + 1;
    }
  }

  /** A step leaves the stack as deep as recorded behind the element, wherever control goes. */
  lemma StackBehind(code: Code, s: State, s1: State)
    requires s.pc < |code| && Width(code[s.pc]) > 0 && Agrees(code, s) && Step(code, s) == Some(s1)
    ensures |s1.stack| == Depth(code, s.pc + 1).sp
  {
    hide Depth, Find;
    DepthNext(code, s.pc);
  }

  /** The instruction table is right: for the word a run carries out it has the depth of the stack behind it. */
  lemma TableDepths(n: Node, env: Env, j: nat, t: State, t1: State)
    requires WellFormed(n, false) && WSteps(Program(n), Start(env), j) == Some(t) && WStep(Program(n), t) == Some(t1)
    ensures var table := Linking.Table(Compile(n), |Compile(n)|);
            exists k :: 0 <= k < |table| && table[k] == Info(t.pc, |t1.stack|)
  {
    hide Compile, Eval, WellFormed, WStep, Step, After, Links, Depth, Words, Linking.Table, Agrees;
    var code, s0 := Compile(n), Start(env);
    CompiledLinks(n);
    WStepsAdd(Program(n), s0, j, 1);
    assert WSteps(Program(n), t, 1) == Some(t1);
    var m := EnoughSteps(n, env, j + 1);
    assert Flat(code, s0) == s0;
    var i, s := Emitting(code, s0, m, j);
    AlwaysAgrees(n, env, i, s);
    StepRefines(code, s, Step(code, s).value);
    StackBehind(code, s, Step(code, s).value);
    TableAt(code, s.pc, |code|);
  }

  /** Compiling and linking a program: its words, and a stack_max that no run exceeds. */
  method Build(n: Node) returns (words: array<Word>, stackMax: int)
    requires WellFormed(n, false)
    ensures words[..] == Program(n)
    ensures forall env, j: nat :: WSteps(Program(n), Start(env), j).Some? ==>
            |WSteps(Program(n), Start(env), j).value.stack| <= stackMax
  {
    hide Compile, WellFormed, WStep, WSteps, Fine, Words, Peak, Linking.Table;
    var code := CompileProgram(n);
    CompiledLinks(n);
    var linker := new Linker();
    var status := linker.SetSequence(code);
    words, stackMax := linker.words, linker.stackMax;
    forall env, j: nat | WSteps(Program(n), Start(env), j).Some?
      ensures |WSteps(Program(n), Start(env), j).value.stack| <= stackMax
    {
      WithinStackMax(n, env, j, WSteps(Program(n), Start(env), j).value);
    }
  }
}
