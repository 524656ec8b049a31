/** iseq_peephole_optimize: rewriting jumps in a compiled list without changing what it computes. */
module Peephole {
  import opened Nodes
  import opened Options
  import opened Lowering
  import opened Machine

  // ----- the machine at the level of instructions -----

  /** The instruction or adjustment at q or the first one behind it. */
  function Next(c: Code, q: nat): (r: nat)
    requires q <= |c|
    ensures q <= r <= |c|
    decreases |c| - q
  {
    if q < |c| && c[q].L? then Next(c, q + 1) else q
  }

  lemma {:induction false} NextIs(c: Code, q: nat, r: nat)
    requires q <= r <= |c| && (forall j :: q <= j < r ==> c[j].L?) && (r < |c| ==> !c[r].L?)
    ensures Next(c, q) == r
    decreases r - q
  {
    if q < r { NextIs(c, q + 1, r); }
  }

  lemma {:induction false} NextSkips(c: Code, q: nat)
    requires q <= |c|
    ensures forall j :: q <= j < Next(c, q) ==> c[j].L?
    ensures Next(c, q) < |c| ==> !c[Next(c, q)].L?
    decreases |c| - q
  {
    if q < |c| && c[q].L? { NextSkips(c, q + 1); }
  }

  /** The instruction or adjustment before q, if any. */
  function Prev(c: Code, q: nat): (r: Option<nat>)
    requires q <= |c|
    ensures r.Some? ==> r.value < q && !c[r.value].L? && forall j :: r.value < j < q ==> c[j].L?
    decreases q
  {
    if q == 0 then None else if !c[q - 1].L? then Some(q - 1) else Prev(c, q - 1)
  }

  /** Where a jump to label l ends up: get_destination_insn. */
  function Dest(c: Code, l: nat): (r: nat)
    ensures r <= |c|
  {
    if Find(c, l) < |c| then Next(c, Find(c, l) + 1) else |c|
  }

  /** What an element does, wherever it stands: go on, or go to a label, or get stuck. Control is never
      at a label here. */
  datatype Move = Stuck | On(stack: seq<Value>, env: Env) | Go(l: nat, stack: seq<Value>, env: Env)

  /** An adjustment cuts the stack down to the depth of its label. */
  function Act(e: Elem, depth: map<nat, int>, stack: seq<Value>, env: Env): Move {
    var top := |stack| - 1;
    match e
    case L(_) => Stuck
    case Adj(l, emits) =>
      if !emits then On(stack, env)
      else if l in depth && 0 <= depth[l] <= |stack| then On(stack[..depth[l]], env)
      else Stuck
    case I(i) =>
      match i
      case PutNil => On(stack + [NilV], env)
      case PutObject(v) => On(stack + [v], env)
      case GetLocal(x) => On(stack + [Get(env, x)], env)
      case Jump(l) => Go(l, stack, env)
      case Leave => Stuck
      case Pop => if top < 0 then Stuck else On(stack[..top], env)
      case Dup => if top < 0 then Stuck else On(stack + [stack[top]], env)
      case SetLocal(x) => if top < 0 then Stuck else On(stack[..top], env[x := stack[top]])
      case BranchIf(l) =>
        if top < 0 then Stuck else if Truthy(stack[top]) then Go(l, stack[..top], env) else On(stack[..top], env)
      case BranchUnless(l) =>
        if top < 0 then Stuck else if Truthy(stack[top]) then On(stack[..top], env) else Go(l, stack[..top], env)
  }

  /** One instruction or adjustment, and on to the next one. */
  function Succ(c: Code, depth: map<nat, int>, s: State): Option<State> {
    if s.pc >= |c| then None
    else match Act(c[s.pc], depth, s.stack, s.env)
      case Stuck => None
      case On(stack, env) => Some(State(Next(c, s.pc + 1), stack, env))
      case Go(l, stack, env) => Some(State(Dest(c, l), stack, env))
  }

  datatype Final = Final(stack: seq<Value>, env: Env)

  predicate AtLeaveOf(c: Code, s: State) {
    s.pc < |c| && c[s.pc] == I(Leave)
  }

  /** What is there when leave is reached within m steps. */
  function Result(c: Code, depth: map<nat, int>, s: State, m: nat): Option<Final>
    decreases m
  {
    if AtLeaveOf(c, s) then Some(Final(s.stack, s.env))
    else if m == 0 then None
    else match Succ(c, depth, s)
      case None => None
      case Some(s1) => Result(c, depth, s1, m - 1)
  }

  ghost predicate Gives(c: Code, depth: map<nat, int>, s: State, f: Final) {
    exists m: nat :: Result(c, depth, s, m) == Some(f)
  }

  function Begin(c: Code, stack: seq<Value>, env: Env): State { State(Next(c, 0), stack, env) }

  /** Both lists give the same results from their beginnings, or none. */
  ghost predicate Same(c: Code, c': Code, depth: map<nat, int>) {
    forall stack, env, f :: Gives(c, depth, Begin(c, stack, env), f) <==> Gives(c', depth, Begin(c', stack, env), f)
  }

  lemma GivesStep(c: Code, depth: map<nat, int>, s: State, s1: State, f: Final)
    requires !AtLeaveOf(c, s) && Succ(c, depth, s) == Some(s1) && Gives(c, depth, s1, f)
    ensures Gives(c, depth, s, f)
  {
    hide Succ, AtLeaveOf;
    var m: nat :| Result(c, depth, s1, m) == Some(f);
    assert Result(c, depth, s, m + 1) == Some(f);
  }

  lemma GivesHere(c: Code, depth: map<nat, int>, s: State)
    requires AtLeaveOf(c, s)
    ensures Gives(c, depth, s, Final(s.stack, s.env))
  {
    assert Result(c, depth, s, 0) == Some(Final(s.stack, s.env));
  }

  // ----- the rewrites -----

  /** The same jump or branch to another label. */
  function To(i: Insn, l: nat): Insn
    requires Target(i).Some?
  {
    match i
    case Jump(_) => Jump(l)
    case BranchIf(_) => BranchIf(l)
    case BranchUnless(_) => BranchUnless(l)
  }

  function Opposite(i: Insn, l: nat): Insn
    requires i.BranchIf? || i.BranchUnless?
  {
    if i.BranchIf? then BranchUnless(l) else BranchIf(l)
  }

  function Remove(c: Code, i: nat): Code
    requires i < |c|
  {
    c[..i] + c[i + 1..]
  }

  // ----- lists that differ in one place -----

  lemma {:induction false} FindUpdate(c: Code, i: nat, e: Elem, l: nat)
    requires i < |c| && !c[i].L? && !e.L?
    ensures Find(c[i := e], l) == Find(c, l)
    decreases |c|
  {
    if i > 0 {
      assert c[i := e][1..] == c[1..][i - 1 := e];
      FindUpdate(c[1..], i - 1, e, l);
    } else {
      assert c[i := e][1..] == c[1..];
    }
  }

  lemma UpdateKeeps(c: Code, i: nat, e: Elem, q: nat, l: nat)
    requires i < |c| && !c[i].L? && !e.L? && q <= |c|
    ensures Next(c[i := e], q) == Next(c, q) && Dest(c[i := e], l) == Dest(c, l)
  {
    hide Next, Find;
    FindUpdate(c, i, e, l);
    NextSkips(c, q);
    NextIs(c[i := e], q, Next(c, q));
    if Find(c, l) < |c| {
      NextSkips(c, Find(c, l) + 1);
      NextIs(c[i := e], Find(c, l) + 1, Next(c, Find(c, l) + 1));
    }
  }

  lemma {:induction false} FindRemove(c: Code, i: nat, l: nat)
    requires i < |c| && !c[i].L?
    ensures Find(Remove(c, i), l) == if Find(c, l) <= i then Find(c, l) else Find(c, l) - 1
    decreases |c|
  {
    if i > 0 {
      assert Remove(c, i)[1..] == Remove(c[1..], i - 1);
      FindRemove(c[1..], i - 1, l);
    } else {
      assert Remove(c, i) == c[1..];
    }
  }

  /** Where a place goes when the element at i is removed; the one behind it takes its place. */
  function Shift(i: nat, q: nat): nat { if q <= i then q else q - 1 }

  /** Where an instruction goes; the removed one's part is taken by the next one. */
  function Home(c: Code, i: nat, q: nat): nat
    requires i < |c|
  {
    Shift(i, if q == i then Next(c, i + 1) else q)
  }

  lemma RemoveNext(c: Code, i: nat, q: nat)
    requires i < |c| && !c[i].L? && q <= |c|
    ensures Next(Remove(c, i), Shift(i, q)) == Home(c, i, Next(c, q))
  {
    hide Next;
    var c', r := Remove(c, i), Next(c, q);
    NextSkips(c, q);
    NextSkips(c, i + 1);
    var t := if r == i then Next(c, i + 1) else r;
    assert forall j :: 0 <= j < |c'| ==> c'[j] == c[if j < i then j else j + 1];
    NextIs(c', Shift(i, q), Shift(i, t));
  }

  lemma RemoveDest(c: Code, i: nat, l: nat)
    requires i < |c| && !c[i].L?
    ensures Dest(Remove(c, i), l) == Home(c, i, Dest(c, l))
  {
    FindPlaced(c, l);
    FindRemove(c, i, l);
    if Find(c, l) < |c| { RemoveNext(c, i, Find(c, l) + 1); }
    hide Next, Find;
  }

  // ----- threading a jump or branch through a jump -----

  /** The jump or branch at i leads to the jump at d, which leads to l2. */
  ghost predicate Threads(c: Code, i: nat, d: nat, l2: nat) {
    && i < |c| && c[i].I? && Target(c[i].insn).Some? && d == Dest(c, Target(c[i].insn).value)
    && d != i && d < |c| && c[d] == I(Jump(l2))
  }

  function Threaded(c: Code, i: nat, l2: nat): Code
    requires i < |c| && c[i].I? && Target(c[i].insn).Some?
  {
    c[i := I(To(c[i].insn, l2))]
  }

  /** Off i the two lists step alike; at i the threaded one either steps alike or is one jump ahead. */
  lemma ThreadStep(c: Code, depth: map<nat, int>, i: nat, d: nat, l2: nat, s: State)
    requires Threads(c, i, d, l2)
    ensures AtLeaveOf(Threaded(c, i, l2), s) <==> AtLeaveOf(c, s)
    ensures var s1, s1' := Succ(c, depth, s), Succ(Threaded(c, i, l2), depth, s);
            s1 == s1' || (s1.Some? && s1'.Some? && s1.value.pc == d && Succ(c, depth, s1.value) == s1')
  {
    hide Next, Find, Dest;
    var c' := Threaded(c, i, l2);
    if s.pc < |c| {
      UpdateKeeps(c, i, c'[i], s.pc + 1, l2);
      match Act(c[s.pc], depth, s.stack, s.env) {
        case Go(l, _, _) => UpdateKeeps(c, i, c'[i], s.pc + 1, l);
        case _ =>
      }
    }
  }

  lemma {:induction false} ThreadForward(c: Code, depth: map<nat, int>, i: nat, d: nat, l2: nat, s: State, m: nat,
                                         f: Final)
    requires Threads(c, i, d, l2) && Result(c, depth, s, m) == Some(f)
    ensures Gives(Threaded(c, i, l2), depth, s, f)
    decreases m
  {
    var c' := Threaded(c, i, l2);
    ThreadStep(c, depth, i, d, l2, s);
    assert forall u: State :: u.pc == d ==> !AtLeaveOf(c, u);
    hide Succ, AtLeaveOf, Threads, Threaded, Gives;
    if AtLeaveOf(c, s) {
      GivesHere(c', depth, s);
    } else {
      var s1, s1' := Succ(c, depth, s).value, Succ(c', depth, s).value;
      ThreadForward(c, depth, i, d, l2, s1', if s1 == s1' then m - 1 else m - 2, f);
      GivesStep(c', depth, s, s1', f);
    }
  }

  lemma {:induction false} ThreadBackward(c: Code, depth: map<nat, int>, i: nat, d: nat, l2: nat, s: State, m: nat,
                                          f: Final)
    requires Threads(c, i, d, l2) && Result(Threaded(c, i, l2), depth, s, m) == Some(f)
    ensures Gives(c, depth, s, f)
    decreases m
  {
    var c' := Threaded(c, i, l2);
    ThreadStep(c, depth, i, d, l2, s);
    assert forall u: State :: u.pc == d ==> !AtLeaveOf(c, u);
    hide Succ, AtLeaveOf, Threads, Threaded, Gives;
    if AtLeaveOf(c, s) {
      GivesHere(c, depth, s);
    } else {
      var s1, s1' := Succ(c, depth, s).value, Succ(c', depth, s).value;
      ThreadBackward(c, depth, i, d, l2, s1', m - 1, f);
      if s1 != s1' { GivesStep(c, depth, s1, s1', f); }
      GivesStep(c, depth, s, s1, f);
    }
  }

  lemma ThreadSame(c: Code, depth: map<nat, int>, i: nat, d: nat, l2: nat)
    requires Threads(c, i, d, l2)
    ensures Same(c, Threaded(c, i, l2), depth)
  {
    var c' := Threaded(c, i, l2);
    UpdateKeeps(c, i, c'[i], 0, 0);
    hide Threads, Threaded, Result, Next;
    forall stack, env, f
      ensures Gives(c, depth, Begin(c, stack, env), f) <==> Gives(c', depth, Begin(c', stack, env), f)
    {
      var s := Begin(c, stack, env);
      if Gives(c, depth, s, f) {
        var m: nat :| Result(c, depth, s, m) == Some(f);
        ThreadForward(c, depth, i, d, l2, s, m, f);
      }
      if Gives(c', depth, s, f) {
        var m: nat :| Result(c', depth, s, m) == Some(f);
        ThreadBackward(c, depth, i, d, l2, s, m, f);
      }
    }
  }

  // ----- removing an element -----

  function AtHome(c: Code, i: nat, s: State): State
    requires i < |c| && s.pc <= |c|
  {
    State(Home(c, i, s.pc), s.stack, s.env)
  }

  /** Away from the removed element the two lists step alike. */
  lemma RemoveStep(c: Code, depth: map<nat, int>, i: nat, s: State)
    requires i < |c| && !c[i].L? && s.pc <= |c| && s.pc != i
    ensures AtLeaveOf(Remove(c, i), AtHome(c, i, s)) <==> AtLeaveOf(c, s)
    ensures var s1 := Succ(c, depth, s);
            && (s1.Some? ==> s1.value.pc <= |c|)
            && Succ(Remove(c, i), depth, AtHome(c, i, s)) == if s1.None? then None else Some(AtHome(c, i, s1.value))
  {
    hide Next, Find, Dest;
    var c', q := Remove(c, i), Shift(i, s.pc);
    if s.pc < |c| {
      assert c'[q] == c[s.pc];
      RemoveNext(c, i, s.pc + 1);
      match Act(c[s.pc], depth, s.stack, s.env) {
        case Go(l, _, _) => RemoveDest(c, i, l);
        case _ =>
      }
    }
  }

  /** A jump to what follows it. */
  ghost predicate Useless(c: Code, i: nat) {
    i < |c| && c[i].I? && c[i].insn.Jump? && Dest(c, c[i].insn.l) == Next(c, i + 1)
  }

  lemma UselessStep(c: Code, depth: map<nat, int>, i: nat, s: State)
    requires Useless(c, i) && s.pc == i
    ensures !AtLeaveOf(c, s) && Succ(c, depth, s) == Some(State(Next(c, i + 1), s.stack, s.env))
    ensures Next(c, i + 1) != i && Next(c, i + 1) <= |c|
    ensures AtHome(c, i, State(Next(c, i + 1), s.stack, s.env)) == AtHome(c, i, s)
  {
  }

  lemma {:induction false} UselessForward(c: Code, depth: map<nat, int>, i: nat, s: State, m: nat, f: Final)
    requires Useless(c, i) && s.pc <= |c| && Result(c, depth, s, m) == Some(f)
    ensures Gives(Remove(c, i), depth, AtHome(c, i, s), f)
    decreases m
  {
    if s.pc == i { UselessStep(c, depth, i, s); } else { RemoveStep(c, depth, i, s); }
    hide Succ, AtLeaveOf, Useless, Gives, Remove, AtHome;
    var c' := Remove(c, i);
    if AtLeaveOf(c, s) {
      GivesAtHome(c, depth, i, s);
    } else {
      var s1 := Succ(c, depth, s).value;
      UselessForward(c, depth, i, s1, m - 1, f);
      if s.pc != i { GivesStep(c', depth, AtHome(c, i, s), AtHome(c, i, s1), f); }
    }
  }

  lemma GivesAtHome(c: Code, depth: map<nat, int>, i: nat, s: State)
    requires i < |c| && s.pc <= |c| && AtLeaveOf(Remove(c, i), AtHome(c, i, s))
    ensures Gives(Remove(c, i), depth, AtHome(c, i, s), Final(s.stack, s.env))
  {
    GivesHere(Remove(c, i), depth, AtHome(c, i, s));
  }

  /** The stack and the variables are the same at home. */
  lemma HomeFinal(c: Code, i: nat, s: State)
    requires i < |c| && s.pc <= |c|
    ensures Final(AtHome(c, i, s).stack, AtHome(c, i, s).env) == Final(s.stack, s.env)
  {
  }

  lemma {:induction false} UselessBackward(c: Code, depth: map<nat, int>, i: nat, s: State, m: nat, f: Final)
    requires Useless(c, i) && s.pc <= |c| && Result(Remove(c, i), depth, AtHome(c, i, s), m) == Some(f)
    ensures Gives(c, depth, s, f)
    decreases m, if s.pc == i then 1 else 0
  {
    if s.pc == i { UselessStep(c, depth, i, s); } else { RemoveStep(c, depth, i, s); }
    HomeFinal(c, i, s);
    hide Succ, AtLeaveOf, Useless, Gives, Remove, AtHome;
    if s.pc == i {
      var s1 := Succ(c, depth, s).value;
      UselessBackward(c, depth, i, s1, m, f);
      GivesStep(c, depth, s, s1, f);
    } else if AtLeaveOf(c, s) {
      GivesHere(c, depth, s);
    } else {
      var s1 := Succ(c, depth, s).value;
      UselessBackward(c, depth, i, s1, m - 1, f);
      GivesStep(c, depth, s, s1, f);
    }
  }

  lemma BeginRemoved(c: Code, i: nat, stack: seq<Value>, env: Env)
    requires i < |c| && !c[i].L?
    ensures Begin(c, stack, env).pc <= |c| && Begin(Remove(c, i), stack, env) == AtHome(c, i, Begin(c, stack, env))
  {
    RemoveNext(c, i, 0);
  }

  /** Dropping a jump to what follows it changes no result. */
  lemma UselessSame(c: Code, depth: map<nat, int>, i: nat)
    requires Useless(c, i)
    ensures Same(c, Remove(c, i), depth)
  {
    var c' := Remove(c, i);
    forall stack, env, f
      ensures Gives(c, depth, Begin(c, stack, env), f) <==> Gives(c', depth, Begin(c', stack, env), f)
    {
      BeginRemoved(c, i, stack, env);
      hide Useless, Result, Begin, Remove, AtHome;
      var s, s' := Begin(c, stack, env), Begin(c', stack, env);
      if Gives(c, depth, s, f) {
        var m: nat :| Result(c, depth, s, m) == Some(f);
        UselessForward(c, depth, i, s, m, f);
      }
      if Gives(c', depth, s', f) {
        var m: nat :| Result(c', depth, s', m) == Some(f);
        UselessBackward(c, depth, i, s, m, f);
      }
    }
  }

  // ----- a jump to leave -----

  /** What stands right behind leave is never reached. */
  lemma {:induction false} DeadForward(c: Code, depth: map<nat, int>, i: nat, s: State, m: nat, f: Final)
    requires 0 < i < |c| && !c[i].L? && c[i - 1] == I(Leave) && s.pc <= |c| && s.pc != i
    requires Result(c, depth, s, m) == Some(f)
    ensures Gives(Remove(c, i), depth, AtHome(c, i, s), f)
    decreases m
  {
    RemoveStep(c, depth, i, s);
    DeadStep(c, depth, i, s);
    hide Succ, AtLeaveOf, Gives, Remove, AtHome;
    if AtLeaveOf(c, s) {
      GivesAtHome(c, depth, i, s);
    } else {
      var s1 := Succ(c, depth, s).value;
      DeadForward(c, depth, i, s1, m - 1, f);
      GivesStep(Remove(c, i), depth, AtHome(c, i, s), AtHome(c, i, s1), f);
    }
  }

  lemma {:induction false} DeadBackward(c: Code, depth: map<nat, int>, i: nat, s: State, m: nat, f: Final)
    requires 0 < i < |c| && !c[i].L? && c[i - 1] == I(Leave) && s.pc <= |c| && s.pc != i
    requires Result(Remove(c, i), depth, AtHome(c, i, s), m) == Some(f)
    ensures Gives(c, depth, s, f)
    decreases m
  {
    RemoveStep(c, depth, i, s);
    DeadStep(c, depth, i, s);
    HomeFinal(c, i, s);
    hide Succ, AtLeaveOf, Gives, Remove, AtHome;
    if AtLeaveOf(c, s) {
      GivesHere(c, depth, s);
    } else {
      var s1 := Succ(c, depth, s).value;
      DeadBackward(c, depth, i, s1, m - 1, f);
      GivesStep(c, depth, s, s1, f);
    }
  }

  lemma DeadStep(c: Code, depth: map<nat, int>, i: nat, s: State)
    requires 0 < i < |c| && !c[i].L? && c[i - 1] == I(Leave) && s.pc != i
    ensures Succ(c, depth, s).Some? ==> Succ(c, depth, s).value.pc != i
  {
    if s.pc < |c| {
      if s.pc + 1 != i { BehindLeave(c, i, s.pc + 1); }
      match Act(c[s.pc], depth, s.stack, s.env) {
        case Go(l, _, _) =>
          FindPlaced(c, l);
          if Find(c, l) < |c| { BehindLeave(c, i, Find(c, l) + 1); }
        case _ =>
      }
    }
  }

  lemma {:induction false} BehindLeave(c: Code, i: nat, q: nat)
    requires 0 < i < |c| && c[i - 1] == I(Leave) && q <= |c| && q != i
    ensures Next(c, q) != i
    decreases |c| - q
  {
    if q < |c| && c[q].L? { BehindLeave(c, i, q + 1); }
  }

  lemma DeadSame(c: Code, depth: map<nat, int>, i: nat)
    requires 0 < i < |c| && !c[i].L? && c[i - 1] == I(Leave)
    ensures Same(c, Remove(c, i), depth)
  {
    var c' := Remove(c, i);
    forall stack, env, f
      ensures Gives(c, depth, Begin(c, stack, env), f) <==> Gives(c', depth, Begin(c', stack, env), f)
    {
      BeginRemoved(c, i, stack, env);
      BehindLeave(c, i, 0);
      var s, s' := Begin(c, stack, env), Begin(c', stack, env);
      assert s.pc != i;
      hide Result, Begin, Remove, AtHome;
      if Gives(c, depth, s, f) {
        var m: nat :| Result(c, depth, s, m) == Some(f);
        DeadForward(c, depth, i, s, m, f);
      }
      if Gives(c', depth, s', f) {
        var m: nat :| Result(c', depth, s', m) == Some(f);
        DeadBackward(c, depth, i, s, m, f);
      }
    }
  }

  /** The jump at i leads to leave. */
  ghost predicate ToLeave(c: Code, i: nat) {
    && i < |c| && c[i].I? && c[i].insn.Jump?
    && Dest(c, c[i].insn.l) < |c| && c[Dest(c, c[i].insn.l)] == I(Leave)
  }

  function Leaving(c: Code, i: nat): Code
    requires i < |c|
  {
    c[..i] + [I(Leave), I(Pop)] + c[i + 1..]
  }

  lemma LeaveStep(c: Code, depth: map<nat, int>, i: nat, s: State)
    requires ToLeave(c, i)
    ensures s.pc != i ==>
              && (AtLeaveOf(c[i := I(Leave)], s) <==> AtLeaveOf(c, s))
              && Succ(c[i := I(Leave)], depth, s) == Succ(c, depth, s)
    ensures s.pc == i ==> AtLeaveOf(c[i := I(Leave)], s) && !AtLeaveOf(c, s)
    ensures s.pc == i ==> Succ(c, depth, s) == Some(State(Dest(c, c[i].insn.l), s.stack, s.env))
                          && AtLeaveOf(c, Succ(c, depth, s).value)
  {
    hide Next, Find, Dest;
    if s.pc < |c| && s.pc != i {
      UpdateKeeps(c, i, I(Leave), s.pc + 1, 0);
      match Act(c[s.pc], depth, s.stack, s.env) {
        case Go(l, _, _) => UpdateKeeps(c, i, I(Leave), s.pc + 1, l);
        case _ =>
      }
    }
  }

  lemma {:induction false} LeaveForward(c: Code, depth: map<nat, int>, i: nat, s: State, m: nat, f: Final)
    requires ToLeave(c, i) && Result(c, depth, s, m) == Some(f)
    ensures Gives(c[i := I(Leave)], depth, s, f)
    decreases m
  {
    var c' := c[i := I(Leave)];
    LeaveStep(c, depth, i, s);
    hide Succ, AtLeaveOf, ToLeave, Gives;
    if AtLeaveOf(c', s) {
      GivesHere(c', depth, s);
    } else {
      var s1 := Succ(c, depth, s).value;
      LeaveForward(c, depth, i, s1, m - 1, f);
      GivesStep(c', depth, s, s1, f);
    }
  }

  lemma {:induction false} LeaveBackward(c: Code, depth: map<nat, int>, i: nat, s: State, m: nat, f: Final)
    requires ToLeave(c, i) && Result(c[i := I(Leave)], depth, s, m) == Some(f)
    ensures Gives(c, depth, s, f)
    decreases m
  {
    LeaveStep(c, depth, i, s);
    hide Succ, AtLeaveOf, ToLeave, Gives;
    if s.pc == i {
      var s1 := Succ(c, depth, s).value;
      GivesHere(c, depth, s1);
      GivesStep(c, depth, s, s1, f);
    } else if AtLeaveOf(c, s) {
      GivesHere(c, depth, s);
    } else {
      var s1 := Succ(c, depth, s).value;
      LeaveBackward(c, depth, i, s1, m - 1, f);
      GivesStep(c, depth, s, s1, f);
    }
  }

  /** Leaving at once instead of jumping to leave changes no result. */
  lemma LeaveSame(c: Code, depth: map<nat, int>, i: nat)
    requires ToLeave(c, i)
    ensures Same(c, Leaving(c, i), depth)
  {
    var c1, c' := c[i := I(Leave)], Leaving(c, i);
    UpdateKeeps(c, i, I(Leave), 0, 0);
    assert Remove(c', i + 1) == c1;
    DeadSame(c', depth, i + 1);
    hide ToLeave, Result, Next, Leaving, Remove;
    forall stack, env, f
      ensures Gives(c, depth, Begin(c, stack, env), f) <==> Gives(c', depth, Begin(c', stack, env), f)
    {
      var s := Begin(c, stack, env);
      assert s == Begin(c1, stack, env);
      if Gives(c, depth, s, f) {
        var m: nat :| Result(c, depth, s, m) == Some(f);
        LeaveForward(c, depth, i, s, m, f);
      }
      if Gives(c1, depth, s, f) {
        var m: nat :| Result(c1, depth, s, m) == Some(f);
        LeaveBackward(c, depth, i, s, m, f);
      }
    }
  }

  // ----- inverting a branch around a jump -----

  /** The branch at p leads behind the jump at i, and only labels are between the two. */
  ghost predicate Bypass(c: Code, p: nat, i: nat) {
    && i < |c| && Prev(c, i) == Some(p) && c[i].I? && c[i].insn.Jump?
    && c[p].I? && (c[p].insn.BranchIf? || c[p].insn.BranchUnless?)
    && Dest(c, Target(c[p].insn).value) == Next(c, i + 1)
  }

  /** No jump or branch leads to the element at i. */
  predicate Unjumped(c: Code, i: nat) {
    forall q :: 0 <= q < |c| && c[q].I? && Target(c[q].insn).Some? ==> Dest(c, Target(c[q].insn).value) != i
  }

  function Flipped(c: Code, p: nat, i: nat): Code
    requires p < |c| && i < |c| && c[p].I? && (c[p].insn.BranchIf? || c[p].insn.BranchUnless?) && c[i].I?
    requires c[i].insn.Jump?
  {
    c[p := I(Opposite(c[p].insn, c[i].insn.l))]
  }

  /** Off the branch the two lists step alike and never meet the jump; a branch not taken meets it, and
      the inverted one is already behind it. */
  lemma InvertStep(c: Code, depth: map<nat, int>, p: nat, i: nat, s: State)
    requires Bypass(c, p, i) && Unjumped(c, i) && s.pc <= |c| && s.pc != i
    ensures var c' := Remove(Flipped(c, p, i), i);
            && (AtLeaveOf(c', AtHome(c, i, s)) <==> AtLeaveOf(c, s))
            && var s1, s1' := Succ(c, depth, s), Succ(c', depth, AtHome(c, i, s));
               || (s1.None? && s1'.None?)
               || (s1.Some? && s1.value.pc != i && s1.value.pc <= |c| && s1' == Some(AtHome(c, i, s1.value)))
               || (s1.Some? && !AtLeaveOf(c, s1.value) && Succ(c, depth, s1.value).Some?
                   && var s2 := Succ(c, depth, s1.value).value;
                      s2.pc != i && s2.pc <= |c| && s1' == Some(AtHome(c, i, s2)))
  {
    hide Next, Find, Dest;
    var c1 := Flipped(c, p, i);
    assert c1[i] == c[i];
    if s.pc < |c| {
      if s.pc == p { InvertAt(c, depth, p, i, s); } else { InvertOff(c, depth, p, i, s); }
    }
  }

  lemma HomeFlipped(c: Code, p: nat, i: nat, q: nat)
    requires Bypass(c, p, i) && q <= |c|
    ensures Home(Flipped(c, p, i), i, q) == Home(c, i, q)
  {
    UpdateKeeps(c, p, Flipped(c, p, i)[p], i + 1, 0);
    hide Next, Find, Dest;
  }

  lemma InvertOff(c: Code, depth: map<nat, int>, p: nat, i: nat, s: State)
    requires Bypass(c, p, i) && Unjumped(c, i) && s.pc < |c| && s.pc != i && s.pc != p
    ensures var c' := Remove(Flipped(c, p, i), i);
            && (AtLeaveOf(c', AtHome(c, i, s)) <==> AtLeaveOf(c, s))
            && var s1 := Succ(c, depth, s);
               && (s1.Some? ==> s1.value.pc != i && s1.value.pc <= |c|)
               && Succ(c', depth, AtHome(c, i, s)) == if s1.None? then None else Some(AtHome(c, i, s1.value))
  {
    hide Next, Find, Dest, Unjumped, Remove, Prev;
    FlippedOff(c, p, i, s.pc);
    var c1 := Flipped(c, p, i);
    if !c[s.pc].L? { NextNotAt(c, p, i, s.pc + 1); }
    RemoveStep(c1, depth, i, s);
    UpdateKeeps(c, p, c1[p], s.pc + 1, 0);
    ActTarget(c, depth, p, i, s);
    match Act(c[s.pc], depth, s.stack, s.env) {
      case Go(l, _, _) => UpdateKeeps(c, p, c1[p], s.pc + 1, l);
      case _ =>
    }
    assert Succ(c1, depth, s) == Succ(c, depth, s);
    hide Succ, AtLeaveOf;
    HomeFlipped(c, p, i, s.pc);
    var s1 := Succ(c, depth, s);
    if s1.Some? { HomeFlipped(c, p, i, s1.value.pc); }
  }

  lemma FlippedOff(c: Code, p: nat, i: nat, q: nat)
    requires Bypass(c, p, i) && q < |c| && q != p
    ensures var c1 := Flipped(c, p, i);
            Prev(c, i) == Some(p) && p < i < |c1| == |c| && c1[q] == c[q] && c1[i] == c[i] && !c1[i].L?
                && c1 == c[p := c1[p]] && !c1[p].L? && !c[p].L?
  {
  }

  /** Where control goes, unless from the branch, is not the jump. */
  lemma ActTarget(c: Code, depth: map<nat, int>, p: nat, i: nat, s: State)
    requires Bypass(c, p, i) && Unjumped(c, i) && s.pc < |c| && s.pc != p && (!c[s.pc].L? ==> Next(c, s.pc + 1) != i)
    ensures Succ(c, depth, s).Some? ==> Succ(c, depth, s).value.pc != i && Succ(c, depth, s).value.pc <= |c|
  {
    hide Next, Find, Dest;
  }

  /** Only the branch falls through to the jump. */
  lemma NextNotAt(c: Code, p: nat, i: nat, q: nat)
    requires i < |c| && Prev(c, i) == Some(p) && q <= |c| && q != p + 1 && !(p < q <= i)
    ensures Next(c, q) != i
  {
    NextSkips(c, q);
  }

  lemma InvertAt(c: Code, depth: map<nat, int>, p: nat, i: nat, s: State)
    requires Bypass(c, p, i) && Unjumped(c, i) && s.pc == p
    ensures var c' := Remove(Flipped(c, p, i), i);
            && !AtLeaveOf(c', AtHome(c, i, s)) && !AtLeaveOf(c, s)
            && var s1, s1' := Succ(c, depth, s), Succ(c', depth, AtHome(c, i, s));
               || (s1.None? && s1'.None?)
               || (s1.Some? && s1.value.pc != i && s1.value.pc <= |c| && s1' == Some(AtHome(c, i, s1.value)))
               || (s1.Some? && !AtLeaveOf(c, s1.value) && Succ(c, depth, s1.value).Some?
                   && var s2 := Succ(c, depth, s1.value).value;
                      s2.pc != i && s2.pc <= |c| && s1' == Some(AtHome(c, i, s2)))
  {
    hide Next, Find, Dest, Unjumped, Remove, Prev;
    var c1, l1, l2, x := Flipped(c, p, i), Target(c[p].insn).value, c[i].insn.l, Next(c, i + 1);
    BypassFacts(c, p, i);
    UpdateKeeps(c, p, c1[p], p + 1, l1);
    UpdateKeeps(c, p, c1[p], p + 1, l2);
    RemoveStep(c1, depth, i, s);
    HomeFlipped(c, p, i, p);
    HomeFlipped(c, p, i, i);
    HomeFlipped(c, p, i, Dest(c, l2));
    HomeFlipped(c, p, i, x);
    assert Home(c, i, i) == Home(c, i, x) by { HomeNext(c, i); }
    FlipAct(c[p].insn, l2, depth, s.stack, s.env);
    assert c1[p] == I(Opposite(c[p].insn, l2));
    hide Act;
  }

  lemma BypassFacts(c: Code, p: nat, i: nat)
    requires Bypass(c, p, i) && Unjumped(c, i)
    ensures p < i && Next(c, p + 1) == i && Dest(c, Target(c[p].insn).value) == Next(c, i + 1) != i
    ensures Dest(c, c[i].insn.l) != i
  {
    NextIs(c, p + 1, i);
  }

  lemma HomeNext(c: Code, i: nat)
    requires i < |c|
    ensures Home(c, i, i) == Home(c, i, Next(c, i + 1))
  {
  }

  /** The inverted branch goes where the other falls through, and falls through where it goes. */
  lemma FlipAct(b: Insn, l: nat, depth: map<nat, int>, stack: seq<Value>, env: Env)
    requires b.BranchIf? || b.BranchUnless?
    ensures Act(I(Opposite(b, l)), depth, stack, env)
            == match Act(I(b), depth, stack, env)
               case Stuck => Stuck
               case On(st, en) => Go(l, st, en)
               case Go(_, st, en) => On(st, en)
  {
  }

  lemma {:induction false} InvertForward(c: Code, depth: map<nat, int>, p: nat, i: nat, s: State, m: nat, f: Final)
    requires Bypass(c, p, i) && Unjumped(c, i) && s.pc <= |c| && s.pc != i && Result(c, depth, s, m) == Some(f)
    ensures Gives(Remove(Flipped(c, p, i), i), depth, AtHome(c, i, s), f)
    decreases m
  {
    hide Prev, Dest, Next, Find, Succ, Unjumped, Gives;
    var c' := Remove(Flipped(c, p, i), i);
    InvertStep(c, depth, p, i, s);
    HomeFinal(c, i, s);
    hide AtLeaveOf, Bypass, Remove, AtHome, Flipped;
    if AtLeaveOf(c, s) {
      GivesHere(c', depth, AtHome(c, i, s));
    } else {
      var s1, s1' := Succ(c, depth, s).value, Succ(c', depth, AtHome(c, i, s)).value;
      if s1.pc != i && s1.pc <= |c| && s1' == AtHome(c, i, s1) {
        InvertForward(c, depth, p, i, s1, m - 1, f);
      } else {
        InvertForward(c, depth, p, i, Succ(c, depth, s1).value, m - 2, f);
      }
      GivesStep(c', depth, AtHome(c, i, s), s1', f);
    }
  }

  lemma {:induction false} InvertBackward(c: Code, depth: map<nat, int>, p: nat, i: nat, s: State, m: nat, f: Final)
    requires Bypass(c, p, i) && Unjumped(c, i) && s.pc <= |c| && s.pc != i
    requires Result(Remove(Flipped(c, p, i), i), depth, AtHome(c, i, s), m) == Some(f)
    ensures Gives(c, depth, s, f)
    decreases m
  {
    hide Prev, Dest, Next, Find, Succ, Unjumped, Gives;
    var c' := Remove(Flipped(c, p, i), i);
    InvertStep(c, depth, p, i, s);
    HomeFinal(c, i, s);
    hide AtLeaveOf, Bypass, Remove, AtHome, Flipped;
    if AtLeaveOf(c, s) {
      GivesHere(c, depth, s);
    } else {
      var s1, s1' := Succ(c, depth, s).value, Succ(c', depth, AtHome(c, i, s)).value;
      if s1.pc != i && s1.pc <= |c| && s1' == AtHome(c, i, s1) {
        InvertBackward(c, depth, p, i, s1, m - 1, f);
      } else {
        var s2 := Succ(c, depth, s1).value;
        InvertBackward(c, depth, p, i, s2, m - 1, f);
        GivesStep(c, depth, s1, s2, f);
      }
      GivesStep(c, depth, s, s1, f);
    }
  }

  /** Inverting a branch around a jump changes no result if nothing else leads to the jump. */
  lemma InvertSame(c: Code, depth: map<nat, int>, p: nat, i: nat)
    requires Bypass(c, p, i) && Unjumped(c, i)
    ensures Same(c, Remove(Flipped(c, p, i), i), depth)
  {
    var c1 := Flipped(c, p, i);
    var c' := Remove(c1, i);
    forall stack, env, f
      ensures Gives(c, depth, Begin(c, stack, env), f) <==> Gives(c', depth, Begin(c', stack, env), f)
    {
      var s, s' := Begin(c, stack, env), Begin(c', stack, env);
      BeginRemoved(c1, i, stack, env);
      UpdateKeeps(c, p, c1[p], 0, 0);
      HomeFlipped(c, p, i, s.pc);
      NextNotAt(c, p, i, 0);
      assert s' == AtHome(c, i, s) && s.pc != i;
      hide Bypass, Unjumped, Result, Begin, Remove, AtHome, Flipped;
      if Gives(c, depth, s, f) {
        var m: nat :| Result(c, depth, s, m) == Some(f);
        InvertForward(c, depth, p, i, s, m, f);
      }
      if Gives(c', depth, s', f) {
        var m: nat :| Result(c', depth, s', m) == Some(f);
        InvertBackward(c, depth, p, i, s, m, f);
      }
    }
  }

  lemma SameTrans(c: Code, c1: Code, c2: Code, depth: map<nat, int>)
    requires Same(c, c1, depth) && Same(c1, c2, depth)
    ensures Same(c, c2, depth)
  {
    hide Gives, Begin;
    forall stack, env, f
      ensures Gives(c, depth, Begin(c, stack, env), f) <==> Gives(c2, depth, Begin(c2, stack, env), f)
    {
      assert Gives(c, depth, Begin(c, stack, env), f) <==> Gives(c1, depth, Begin(c1, stack, env), f);
    }
  }
}
