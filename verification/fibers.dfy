/** Fibers: who resumed whom, and the ring all fibers of a thread hang in. */
module Fibers {

  datatype Value = NilV | Atom(n: int) | Ary(elems: seq<Value>)

  datatype Status = CREATED | RUNNING | TERMINATED

  datatype Outcome = Switched | DoubleResume | DeadFiber | RootYield

  /** make_passing_arg */
  function PassingArg(args: seq<Value>): Value {
    if |args| == 0 then NilV else if |args| == 1 then args[0] else Ary(args)
  }

  /** What arrives of arguments that are passed on: nil, the one argument, or an array of exactly them. */
  predicate Arrived(v: Value, args: seq<Value>) {
    && (args == [] ==> v == NilV)
    && (|args| == 1 ==> v == args[0])
    && (|args| >= 2 ==> v.Ary? && v.elems == args)
  }

  lemma ArrivedOnly(v: Value, args: seq<Value>)
    requires Arrived(v, args)
    ensures v == PassingArg(args)
  {
  }

  class Fiber {
    var prev: Fiber?
    var status: Status
    var value: Value
    /** How many arguments the value was passed as. */
    var argc: nat
    var prevFiber: Fiber?
    var nextFiber: Fiber?

    /** fiber_t_alloc */
    constructor ()
      ensures prev == null && status == CREATED && prevFiber == null && nextFiber == null && value == NilV
    {
      prev, status, value, argc, prevFiber, nextFiber := null, CREATED, NilV, 0, null, null;
    }
  }

  // ----- the ring -----

  function After(n: nat, i: nat): nat { if i + 1 < n then i + 1 else 0 }

  /** Every fiber of the sequence points to the next one and back, the last one to the first. */
  ghost predicate Ring(ring: seq<Fiber>)
    reads ring`nextFiber, ring`prevFiber
  {
    forall i :: 0 <= i < |ring| ==>
         ring[i].nextFiber == ring[After(|ring|, i)] && ring[After(|ring|, i)].prevFiber == ring[i]
  }

  ghost predicate Apart(s: seq<Fiber>) {
    forall i, j :: 0 <= i < j < |s| ==> s[i] != s[j]
  }

  lemma JoinedApart(ring: seq<Fiber>, k: nat, f: Fiber)
    requires Apart(ring) && k < |ring| && f !in ring
    ensures Apart(Joined(ring, k, f))
    ensures forall g :: g in Joined(ring, k, f) <==> g in ring || g == f
  {
    var joined := Joined(ring, k, f);
    assert forall i :: 0 <= i < |joined| ==>
        joined[i] == if i <= k then ring[i] else if i == k + 1 then f else ring[i - 1];
  }

  lemma JoinedIndex(ring: seq<Fiber>, k: nat, f: Fiber)
    requires k < |ring|
    ensures var joined := Joined(ring, k, f);
            && |joined| == |ring| + 1 && joined[k + 1] == f
            && (forall i :: 0 <= i <= k ==> joined[i] == ring[i])
            && (forall i :: k + 1 < i < |joined| ==> joined[i] == ring[i - 1])
  {
  }

  /** Only the one behind k has k in front of it, and only k is followed by it. */
  lemma NextApart(ring: seq<Fiber>, k: nat)
    requires Apart(ring) && k < |ring|
    ensures forall j :: 0 <= j < |ring| && j != k ==>
            ring[j] != ring[k] && ring[After(|ring|, j)] != ring[After(|ring|, k)]
  {
  }

  lemma WithoutApart(ring: seq<Fiber>, k: nat)
    requires Apart(ring) && k < |ring|
    ensures Apart(Without(ring, k)) && |Without(ring, k)| == |ring| - 1
    ensures forall i :: 0 <= i < |ring| - 1 ==> Without(ring, k)[i] == ring[if i < k then i else i + 1]
    ensures forall g :: g in Without(ring, k) <==> g in ring && g != ring[k]
  {
    var left := Without(ring, k);
    assert forall i :: 0 <= i < |left| ==> left[i] == if i < k then ring[i] else ring[i + 1];
    forall g | g in ring && g != ring[k] ensures g in left {
      var i :| 0 <= i < |ring| && ring[i] == g;
      assert left[if i < k then i else i - 1] == g;
    }
  }

  /** The ring with f behind position k. */
  function Joined(ring: seq<Fiber>, k: nat, f: Fiber): seq<Fiber>
    requires k < |ring|
  {
    ring[..k + 1] + [f] + ring[k + 1..]
  }

  function Without(ring: seq<Fiber>, k: nat): seq<Fiber>
    requires k < |ring|
  {
    ring[..k] + ring[k + 1..]
  }

  /** fiber_link_join: f goes in behind the current fiber. */
  method LinkJoin(f: Fiber, current: Fiber, ghost ring: seq<Fiber>, ghost k: nat)
    requires Ring(ring) && Apart(ring) && k < |ring| && ring[k] == current && f !in ring
    modifies f`prevFiber, f`nextFiber, ring`prevFiber, ring`nextFiber
    ensures Ring(Joined(ring, k, f)) && Apart(Joined(ring, k, f))
    ensures forall g :: g in Joined(ring, k, f) <==> g in ring || g == f
  {
    hide Joined, Apart;
    ghost var n, next := |ring|, ring[After(|ring|, k)];
    JoinedApart(ring, k, f);
    ghost var joined := Joined(ring, k, f);
    JoinedIndex(ring, k, f);
    NextApart(ring, k);
    f.nextFiber := current.nextFiber;
    f.prevFiber := current;
    current.nextFiber.prevFiber := f;
    current.nextFiber := f;
    forall i | 0 <= i < n + 1
      ensures joined[i].nextFiber == joined[After(n + 1, i)] && joined[After(n + 1, i)].prevFiber == joined[i]
    {
      if i != k && i != k + 1 {
        var j := if i < k then i else i - 1;
        assert joined[i] == ring[j] && joined[After(n + 1, i)] == ring[After(n, j)];
      }
    }
  }

  /** fiber_link_remove */
  method LinkRemove(f: Fiber, ghost ring: seq<Fiber>, ghost k: nat)
    requires Ring(ring) && Apart(ring) && k < |ring| && ring[k] == f && |ring| > 1
    modifies ring`prevFiber, ring`nextFiber
    ensures Ring(Without(ring, k)) && Apart(Without(ring, k))
    ensures forall g :: g in Without(ring, k) <==> g in ring && g != f
  {
    ghost var before := if k == 0 then |ring| - 1 else k - 1;
    assert After(|ring|, before) == k && ring[before].nextFiber == f && f.prevFiber == ring[before];
    f.prevFiber.nextFiber := f.nextFiber;
    f.nextFiber.prevFiber := f.prevFiber;
    ghost var n, left := |ring|, Without(ring, k);
    WithoutApart(ring, k);
    hide Without;
    forall i | 0 <= i < n - 1
      ensures left[i].nextFiber == left[After(n - 1, i)] && left[After(n - 1, i)].prevFiber == left[i]
    {
      var j := if i < k then i else i + 1;
      if j == before {
        assert left[After(n - 1, i)] == ring[After(n, k)];
      } else {
        assert left[After(n - 1, i)] == ring[After(n, j)];
      }
    }
  }

  // ----- the thread -----

  /** Whether x is on a chain of resumers because it was resumed, as all are but the first. */
  predicate Resumed<T(==)>(chain: seq<T>, x: T) {
    exists i :: 0 < i < |chain| && chain[i] == x
  }

  /** Nobody was resumed twice. */
  predicate Simple<T(==)>(chain: seq<T>) {
    forall i, j :: 0 < i < j < |chain| ==> chain[i] != chain[j]
  }

  lemma Resuming(chain: seq<Fiber>, f: Fiber)
    requires chain != [] && Simple(chain) && !Resumed(chain, f)
    ensures Simple(chain + [f]) && Resumed(chain + [f], f)
    ensures forall g :: g in chain && Resumed(chain, g) ==> Resumed(chain + [f], g)
  {
    var grown := chain + [f];
    assert grown[|chain|] == f;
    forall g | g in chain && Resumed(chain, g) ensures Resumed(grown, g) {
      var i :| 0 < i < |chain| && chain[i] == g;
      assert grown[i] == g;
    }
  }

  /** The last one gives control back. */
  lemma Yielding(chain: seq<Fiber>)
    requires |chain| > 1 && Simple(chain)
    ensures var n := |chain| - 1;
            && Simple(chain[..n]) && !Resumed(chain[..n], chain[n]) && (forall i :: 0 < i < n ==> chain[i] != chain[n])
            && forall f :: f in chain && Resumed(chain, f) && f != chain[n] ==> Resumed(chain[..n], f)
  {
    var n := |chain| - 1;
    forall f | f in chain && Resumed(chain, f) && f != chain[n] ensures Resumed(chain[..n], f) {
      var i :| 0 < i < |chain| && chain[i] == f;
      assert chain[..n][i] == f;
    }
  }

  lemma Alone(chain: seq<Fiber>, f: Fiber)
    requires |chain| == 1
    ensures !Resumed(chain, f)
  {
  }

  lemma ResumedIn(chain: seq<Fiber>, f: Fiber)
    requires Resumed(chain, f)
    ensures f in chain
  {
  }

  lemma ApartAt(s: seq<Fiber>, i: nat)
    requires Apart(s) && 0 < i < |s|
    ensures s[i] != s[0]
  {
  }

  class Thread {
    var fiber: Fiber?
    var rootFiber: Fiber?
    /** All fibers of the thread as they hang in the ring. */
    ghost var ring: seq<Fiber>
    /** Who resumed whom: the root first, the running fiber last. The root can be resumed too. */
    ghost var chain: seq<Fiber>

    ghost predicate Valid()
      reads this, ring
    {
      && (fiber == null <==> rootFiber == null) && (fiber == null <==> chain == []) && (fiber == null ==> ring == [])
      && (chain != [] ==> chain[0] == rootFiber && chain[|chain| - 1] == fiber)
      && Ring(ring) && Apart(ring) && Simple(chain)
      && (forall i :: 0 <= i < |chain| ==> chain[i] in ring && chain[i].status != TERMINATED)
      && (forall i :: 0 < i < |chain| ==> chain[i].prev == chain[i - 1])
      && (forall f :: f in ring && !Resumed(chain, f) ==> f.prev == null)
    }

    constructor ()
      ensures Valid() && fiber == null && ring == []
    {
      fiber, rootFiber, ring, chain := null, null, [], [];
    }

    /** rb_fiber_current: the first use makes the root fiber, a ring of its own. */
    method Current() returns (f: Fiber)
      requires Valid()
      modifies this
      ensures Valid() && f == fiber && chain != []
      ensures if old(fiber) == null then fresh(f) && ring == [f] && chain == [f]
              else fiber == old(fiber) && rootFiber == old(rootFiber) && ring == old(ring) && chain == old(chain)
    {
      if fiber == null {
        f := new Fiber();
        f.prevFiber, f.nextFiber := f, f;
        rootFiber, fiber, ring, chain := f, f, [f], [f];
      }
      f := fiber;
    }

    /** fiber_init: a new fiber behind the current one in the ring, resumed by nobody. */
    method Create() returns (f: Fiber)
      requires Valid()
      modifies this, ring`prevFiber, ring`nextFiber
      ensures Valid() && fresh(f) && f in ring && f !in chain && f != rootFiber && f.status == CREATED
      ensures old(fiber) != null ==> chain == old(chain) && fiber == old(fiber) && rootFiber == old(rootFiber)
      ensures old(fiber) == null ==> chain == [fiber] && fresh(fiber)
      ensures forall g :: g in old(ring) ==> g in ring
      ensures forall g :: g in ring ==> g in old(ring) || fresh(g)
    {
      hide Ring, Joined, Apart, Simple, Resumed;
      f := new Fiber();
      var current := Current();
      ghost var k :| 0 <= k < |ring| && ring[k] == current;
      LinkJoin(f, current, ring, k);
      ring := Joined(ring, k, f);
    }

    /** fiber_link_remove when a fiber nobody refers to is freed. */
    method Free(f: Fiber)
      requires Valid() && f in ring && f !in chain
      modifies this`ring, ring`prevFiber, ring`nextFiber
      ensures Valid() && (forall g :: g in ring <==> g in old(ring) && g != f)
    {
      hide Without, Ring, Apart, Simple, Resumed;
      ghost var k :| 0 <= k < |ring| && ring[k] == f;
      assert |ring| > 1;
      LinkRemove(f, ring, k);
      ring := Without(ring, k);
    }

    /** fiber_switch */
    method Switch(f: Fiber, args: seq<Value>, isResume: bool) returns (outcome: Outcome)
      requires fiber != null
      modifies this`fiber, f`prev, f`value, f`argc
      ensures f.status == TERMINATED ==>
              outcome == DeadFiber && fiber == old(fiber) && f.prev == old(f.prev) && f.value == old(f.value)
      ensures f.status != TERMINATED ==>
                && outcome == Switched && fiber == f && Arrived(f.value, args) && f.argc == |args|
                && f.prev == if isResume then old(fiber) else old(f.prev)
    {
      if f.status == TERMINATED { return DeadFiber; }
      if isResume { f.prev := fiber; }
      f.argc := |args|;
      f.value := PassingArg(args);
      fiber := f;
      outcome := Switched;
    }

    /** A fiber has a back link exactly when it was resumed and has not given control back. */
    lemma ResumedLinked(f: Fiber)
      requires Valid() && f in ring
      ensures f.prev != null <==> Resumed(chain, f)
    {
      hide Ring, Apart, Simple;
      if Resumed(chain, f) {
        var i :| 0 < i < |chain| && chain[i] == f;
        var resumer: Fiber := chain[i - 1];
        assert chain[i].prev == resumer;
      }
    }

    /** rb_fiber_resume. A fiber that was resumed and has not given control back cannot be resumed again,
        nor can a dead one; any other becomes current and its resumer waits for it. That holds for the root
        too, which nobody resumed at first. */
    method Resume(f: Fiber, args: seq<Value>) returns (outcome: Outcome)
      requires Valid() && f in ring
      modifies this, f
      ensures Valid() && ring == old(ring) && rootFiber == old(rootFiber) && f.status == old(f.status)
      ensures old(Resumed(chain, f)) ==> outcome == DoubleResume && chain == old(chain) && f.value == old(f.value)
      ensures old(!Resumed(chain, f) && f.status == TERMINATED) ==>
                outcome == DeadFiber && chain == old(chain) && f.value == old(f.value)
      ensures old(!Resumed(chain, f) && f.status != TERMINATED) ==>
                && outcome == Switched && chain == old(chain) + [f] && fiber == f
                && Arrived(f.value, args) && f.argc == |args|
    {
      hide Ring, Apart, Simple, Resumed, Arrived;
      ResumedLinked(f);
      if f.prev != null { return DoubleResume; }
      outcome := Switch(f, args, true);
      if outcome == Switched {
        ghost var was := chain;
        Resuming(was, f);
        chain := chain + [f];
        forall g | g in ring && !Resumed(chain, g) ensures g.prev == null {
          if Resumed(was, g) { ResumedIn(was, g); }
        }
      }
    }

    /** Where k back links lead. */
    ghost function Back(f: Fiber, k: nat): Fiber?
      requires Valid() && f in ring
      reads this, ring
      decreases k
    {
      LinkedBack(f);
      if k == 0 then f else if f.prev == null then null else Back(f.prev, k - 1)
    }

    lemma LinkedBack(f: Fiber)
      requires Valid() && f in ring
      ensures f.prev != null ==> f.prev in ring
    {
      hide Ring, Apart;
      if f.prev != null {
        var i :| 0 < i < |chain| && chain[i] == f;
        assert chain[i - 1] in ring;
      }
    }

    /** The back links go down the chain. */
    lemma {:induction false} BackAlong(i: nat, k: nat)
      requires Valid() && k <= i < |chain|
      ensures Back(chain[i], k) == chain[i - k]
      decreases k
    {
      hide Ring, Apart;
      if k > 0 { BackAlong(i - 1, k - 1); }
    }

    /** Without the root among the resumed fibers they end at it. */
    lemma {:induction false} BackEnds(i: nat)
      requires Valid() && i < |chain| && !Resumed(chain, rootFiber)
      ensures Back(chain[i], i + 1) == null
    {
      hide Ring, Apart;
      if i > 0 { BackEnds(i - 1); }
    }

    /** With it they never end. */
    lemma {:induction false} BackForever(i: nat, m: nat, k: nat)
      requires Valid() && i < |chain| && 0 < m < |chain| && chain[m] == rootFiber
      ensures Back(chain[i], k) != null
      decreases k
    {
      hide Ring, Apart;
      if k > 0 {
        var resumer: Fiber := chain[if i > 0 then i - 1 else m - 1];
        assert chain[i].prev == resumer;
        BackForever(if i > 0 then i - 1 else m - 1, m, k - 1);
      }
    }

    /** The back links from the running fiber lead round in a circle exactly when the root has been resumed
        and has not given control back: the circle is the chain up to there. */
    lemma CircleExactly()
      requires Valid() && fiber != null
      ensures (forall k: nat :: Back(fiber, k) != null) <==> Resumed(chain, rootFiber)
      ensures forall m :: 0 < m < |chain| && chain[m] == rootFiber ==> Back(rootFiber, m) == rootFiber
    {
      hide Ring, Apart, Back;
      var n := |chain| - 1;
      if Resumed(chain, rootFiber) {
        var m :| 0 < m < |chain| && chain[m] == rootFiber;
        forall k: nat ensures Back(fiber, k) != null { BackForever(n, m, k); }
      } else {
        BackEnds(n);
      }
      forall m | 0 < m < |chain| && chain[m] == rootFiber
        ensures Back(rootFiber, m) == rootFiber
      {
        BackAlong(m, m);
      }
    }

    /** return_fiber: the fiber that resumed the current one, which forgets it; none for the root. */
    method ReturnFiber() returns (r: Fiber?)
      requires fiber != null && rootFiber != null
      modifies fiber`prev
      ensures old(fiber.prev) != null ==> r == old(fiber.prev) && fiber.prev == null
      ensures old(fiber.prev) == null ==> r == (if fiber != rootFiber then rootFiber else null) && fiber.prev == null
    {
      if fiber.prev == null {
        return if fiber != rootFiber then rootFiber else null;
      }
      r := fiber.prev;
      fiber.prev := null;
    }

    /** rb_fiber_yield: back to the resumer, which is alive; only the root nobody resumed cannot yield. */
    method Yield(args: seq<Value>) returns (outcome: Outcome)
      requires Valid()
      modifies this, ring
      ensures Valid()
      ensures old(|chain|) <= 1 ==> outcome == RootYield && |chain| == 1 && (old(fiber) != null ==> chain == old(chain))
      ensures old(|chain|) > 1 ==>
                && outcome == Switched && chain == old(chain[..|chain| - 1]) && Arrived(fiber.value, args)
                && old(fiber).prev == null && (fiber != old(fiber) ==> old(fiber).value == old(fiber.value))
      ensures old(fiber) != null ==> ring == old(ring) && rootFiber == old(rootFiber)
      ensures forall g :: g in ring ==> g in old(ring) || fresh(g)
      ensures forall f :: f in old(ring) ==> f.status == old(f.status)
    {
      hide Ring, Apart, Simple, Resumed, Arrived;
      var _ := Current();
      assert |chain| > 1 ==>
        var resumer := chain[|chain| - 2];
        fiber.prev == resumer && resumer in ring;
      ghost var was := chain;
      if |chain| == 1 { Alone(chain, fiber); } else { Yielding(chain); }
      var r := ReturnFiber();
      if r == null { return RootYield; }
      outcome := Switch(r, args, false);
      chain := chain[..|chain| - 1];
      forall f | f in ring && !Resumed(chain, f) ensures f.prev == null {
        if Resumed(was, f) { ResumedIn(was, f); }
      }
    }

    /** rb_fiber_start, up to the call of the block: it runs from now on, called with exactly the arguments
        that were given to resume. */
    method Start(ghost given: seq<Value>) returns (args: seq<Value>)
      requires Valid() && fiber != rootFiber && fiber.status == CREATED
      requires Arrived(fiber.value, given) && fiber.argc == |given|
      modifies fiber
      ensures Valid() && fiber.status == RUNNING && args == given
    {
      args := if fiber.argc > 1 then fiber.value.elems else if fiber.argc == 1 then [fiber.value] else [];
      fiber.value := NilV;
      fiber.status := RUNNING;
    }

    /** rb_fiber_terminate when the block has returned v: the fiber is dead and its resumer, which is
        alive, goes on with v. */
    method Terminate(v: Value) returns (outcome: Outcome)
      requires Valid() && fiber != rootFiber
      modifies this, ring
      ensures Valid() && ring == old(ring) && rootFiber == old(rootFiber)
      ensures outcome == Switched && chain == old(chain[..|chain| - 1]) && fiber.value == v
      ensures old(fiber).status == TERMINATED
      ensures forall f :: f in ring && f != old(fiber) ==> f.status == old(f.status)
    {
      hide Ring, Apart, Simple, Resumed;
      assert fiber.prev == chain[|chain| - 2] && chain[|chain| - 2] in ring;
      ghost var was := chain;
      Yielding(chain);
      fiber.value := v;
      fiber.status := TERMINATED;
      var r := ReturnFiber();
      outcome := Switch(r, [v], false);
      chain := chain[..|chain| - 1];
      forall f | f in ring && !Resumed(chain, f) ensures f.prev == null {
        if Resumed(was, f) { ResumedIn(was, f); }
      }
    }
  }

  // ----- runs, with fibers named by number: 0 is the root -----

  /** What a fiber gets when it goes on: its block's arguments, or the value its own resume or yield returns. */
  datatype Given = Nothing | Arguments(args: seq<Value>) | Returned(v: Value)

  /** Who waits for whom, who is dead, how many fibers there are, whose block has begun, and what the running fiber
      has got. */
  datatype Calls = Calls(chain: seq<nat>, dead: set<nat>, count: nat, begun: set<nat>, given: Given)

  datatype Op = New | ResumeIt(i: nat, args: seq<Value>) | YieldBack(args: seq<Value>) | Return(v: Value)

  /** A program resumes fibers it has, and only a fiber's block returns: the root has none. */
  predicate Sensible(a: Calls, op: Op) {
    && a.chain != []
    && (op.ResumeIt? ==> op.i < a.count)
    && (op.Return? ==> a.chain[|a.chain| - 1] != 0)
  }

  /** What an operation does, and whether it raises. */
  function Perform(a: Calls, op: Op): (Calls, Outcome)
    requires Sensible(a, op)
  {
    var n := |a.chain| - 1;
    match op
    case New => (a.(count := a.count + 1), Switched)
    case ResumeIt(i, args) =>
      if Resumed(a.chain, i) then (a, DoubleResume)
      else if i in a.dead then (a, DeadFiber)
      else
        var given := if i in a.begun then Returned(PassingArg(args)) else Arguments(args);
        (a.(chain := a.chain + [i], begun := a.begun + {i}, given := given), Switched)
    case YieldBack(args) =>
      if n == 0 then (a, RootYield) else (a.(chain := a.chain[..n], given := Returned(PassingArg(args))), Switched)
    case Return(v) => (a.(chain := a.chain[..n], dead := a.dead + {a.chain[n]}, given := Returned(v)), Switched)
  }

  ghost predicate SensibleRun(a: Calls, ops: seq<Op>)
    decreases |ops|
  {
    ops != [] ==> Sensible(a, ops[0]) && SensibleRun(Perform(a, ops[0]).0, ops[1..])
  }

  ghost function Performed(a: Calls, ops: seq<Op>): Calls
    requires SensibleRun(a, ops)
    decreases |ops|
  {
    if ops == [] then a else Performed(Perform(a, ops[0]).0, ops[1..])
  }

  /** The chain starts at the root, nobody in it was resumed twice, and it holds only live fibers that have begun. */
  ghost predicate Sound(a: Calls) {
    && a.chain != [] && a.chain[0] == 0
    && Simple(a.chain)
    && (forall i :: 0 <= i < |a.chain| ==> a.chain[i] in a.begun && a.chain[i] !in a.dead)
    && (forall i :: i in a.begun ==> i < a.count)
    && (forall i :: i in a.dead ==> 0 < i < a.count)
  }

  lemma PerformSound(a: Calls, op: Op)
    requires Sound(a) && Sensible(a, op)
    ensures Sound(Perform(a, op).0) && a.dead <= Perform(a, op).0.dead && a.begun <= Perform(a, op).0.begun
  {
  }

  /** In every run the chain stays simple and live, the dead stay dead, and who has begun has begun. */
  lemma {:induction false} RunsSound(a: Calls, ops: seq<Op>)
    requires Sound(a) && SensibleRun(a, ops)
    ensures Sound(Performed(a, ops)) && a.dead <= Performed(a, ops).dead && a.begun <= Performed(a, ops).begun
    decreases |ops|
  {
    hide Sound;
    if ops != [] {
      PerformSound(a, ops[0]);
      RunsSound(Perform(a, ops[0]).0, ops[1..]);
    }
  }

  /** Throughout the run at least k fibers of the chain stay. */
  ghost predicate NeverBelow(a: Calls, ops: seq<Op>, k: nat)
    requires SensibleRun(a, ops)
    decreases |ops|
  {
    |a.chain| >= k && (ops != [] ==> NeverBelow(Perform(a, ops[0]).0, ops[1..], k))
  }

  /** Resuming and yielding nest: as long as fewer yields than resumes have happened, those who waited
      before still wait, in the same order. */
  lemma {:induction false} Nested(a: Calls, ops: seq<Op>, k: nat)
    requires SensibleRun(a, ops) && NeverBelow(a, ops, k)
    ensures |Performed(a, ops).chain| >= k && Performed(a, ops).chain[..k] == a.chain[..k]
    decreases |ops|
  {
    if ops != [] {
      var b := Perform(a, ops[0]).0;
      assert |b.chain| >= k;
      assert b.chain[..k] == a.chain[..k];
      Nested(b, ops[1..], k);
    }
  }

  /** Whatever the resumed fiber does, as long as it has not given up control for good, its next yield
      or its end gives control back to the one who resumed it, with the same fibers waiting behind; and what the
      resume returns is what that yield was given or that block ended with. */
  lemma BackToResumer(a: Calls, i: nat, args: seq<Value>, ops: seq<Op>, last: Op)
    requires Sensible(a, ResumeIt(i, args)) && Perform(a, ResumeIt(i, args)).1 == Switched
    requires var b := Perform(a, ResumeIt(i, args)).0;
             && SensibleRun(b, ops) && NeverBelow(b, ops, |b.chain|) && |Performed(b, ops).chain| == |b.chain|
             && (last.YieldBack? || last.Return?) && Sensible(Performed(b, ops), last)
    ensures var b := Perform(a, ResumeIt(i, args)).0;
            && Performed(b, ops).chain == b.chain
            && Perform(Performed(b, ops), last).0.chain == a.chain
            && (last.Return? ==> i in Perform(Performed(b, ops), last).0.dead)
            && var given := Perform(Performed(b, ops), last).0.given;
               given.Returned? && if last.Return? then given.v == last.v else Arrived(given.v, last.args)
  {
    var b := Perform(a, ResumeIt(i, args)).0;
    Nested(b, ops, |b.chain|);
    assert Performed(b, ops).chain[..|b.chain|] == Performed(b, ops).chain;
    assert b.chain[..|a.chain|] == a.chain;
  }

  /** Only resuming a fiber begins its block. */
  lemma {:induction false} BegunByResume(a: Calls, ops: seq<Op>, i: nat)
    requires SensibleRun(a, ops) && i !in a.begun && forall op :: op in ops && op.ResumeIt? ==> op.i != i
    ensures i !in Performed(a, ops).begun
    decreases |ops|
  {
    if ops != [] { BegunByResume(Perform(a, ops[0]).0, ops[1..], i); }
  }

  /** The first resume of a fiber calls its block with exactly the arguments given; any later one is what its own
      yield returns, whatever happens in between. */
  lemma ResumeGives(a: Calls, i: nat, ops: seq<Op>, args: seq<Value>)
    requires SensibleRun(a, ops) && Sound(a) && Sensible(Performed(a, ops), ResumeIt(i, args))
    requires Perform(Performed(a, ops), ResumeIt(i, args)).1 == Switched
    ensures var given := Perform(Performed(a, ops), ResumeIt(i, args)).0.given;
            && (i !in a.begun && (forall op :: op in ops && op.ResumeIt? ==> op.i != i) ==> given == Arguments(args))
            && (i in a.begun ==> given.Returned? && Arrived(given.v, args))
  {
    hide Sound, Performed;
    RunsSound(a, ops);
    if i !in a.begun && forall op :: op in ops && op.ResumeIt? ==> op.i != i { BegunByResume(a, ops, i); }
  }

  /** A thread with its fibers by number. */
  class Script {
    const th: Thread
    var fibers: seq<Fiber>
    /** What the running fiber has got. */
    var given: Given
    ghost var ids: seq<nat>

    ghost predicate Linked()
      reads this, th, th.ring
    {
      && th.Valid() && th.fiber != null && |fibers| > 0 && fibers[0] == th.rootFiber && Apart(fibers)
      && (forall i :: 0 <= i < |fibers| ==> fibers[i] in th.ring)
      && |ids| == |th.chain| && (forall i :: 0 <= i < |ids| ==> ids[i] < |fibers| && fibers[ids[i]] == th.chain[i])
    }

    ghost predicate Begun(i: nat)
      requires i < |fibers|
      reads this, fibers
    {
      i == 0 || fibers[i].status != CREATED
    }

    ghost predicate Valid()
      reads this, th, th.ring, fibers
    {
      Linked() && forall i :: 0 <= i < |ids| ==> Begun(ids[i])
    }

    ghost function State(): Calls
      requires Valid()
      reads this, th, th.ring, fibers
    {
      Calls(ids, (set i: nat | i < |fibers| && fibers[i].status == TERMINATED), |fibers|,
            (set i: nat | i < |fibers| && Begun(i)), given)
    }

    constructor ()
      ensures Valid() && State() == Calls([0], {}, 1, {0}, Nothing) && fresh(th)
    {
      th := new Thread();
      new;
      var root := th.Current();
      fibers, ids, given := [root], [0], Nothing;
      assert State().begun == {0};
    }

    /** A number is among the resumed ones when its fiber is. */
    lemma Numbered(i: nat)
      requires Linked() && i < |fibers|
      ensures Resumed(ids, i) <==> Resumed(th.chain, fibers[i])
    {
      hide Ring;
      if Resumed(th.chain, fibers[i]) {
        var k :| 0 < k < |th.chain| && th.chain[k] == fibers[i];
        assert ids[k] == i;
      }
    }

    /** The pointers do what the numbers say. */
    method Do(op: Op) returns (outcome: Outcome)
      requires Valid() && Sensible(State(), op)
      modifies this, th, set f | f in th.ring
      ensures forall f :: f in th.ring ==> f in old(th.ring) || fresh(f)
      ensures Valid() && (State(), outcome) == Perform(old(State()), op)
    {
      match op {
        case New => outcome := DoNew();
        case ResumeIt(i, args) => outcome := DoResume(i, args);
        case YieldBack(args) => outcome := DoYield(args);
        case Return(v) => outcome := DoReturn(v);
      }
    }

    method DoNew() returns (outcome: Outcome)
      requires Valid()
      modifies this, th, th.ring
      ensures forall f :: f in th.ring ==> f in old(th.ring) || fresh(f)
      ensures Valid() && (State(), outcome) == Perform(old(State()), New)
    {
      hide Ring, Simple, Resumed;
      ghost var before := State();
      var f := th.Create();
      fibers := fibers + [f];
      outcome := Switched;
      assert State().dead == before.dead && State().begun == before.begun;
    }

    /** The pointers of a resume, before the fiber goes on. */
    method Resuming(i: nat, args: seq<Value>) returns (outcome: Outcome)
      requires Valid() && i < |fibers|
      modifies this`ids, th, fibers[i]
      ensures Linked() && th.ring == old(th.ring)
      ensures outcome == if old(Resumed(ids, i)) then DoubleResume
                         else if old(fibers[i].status) == TERMINATED then DeadFiber else Switched
      ensures ids == if outcome == Switched then old(ids) + [i] else old(ids)
      ensures fibers[i].status == old(fibers[i].status)
      ensures outcome == Switched ==> Arrived(fibers[i].value, args) && fibers[i].argc == |args|
    {
      hide Ring, Simple, Resumed, Arrived;
      Numbered(i);
      outcome := th.Resume(fibers[i], args);
      if outcome == Switched { ids := ids + [i]; }
    }

    method DoResume(i: nat, args: seq<Value>) returns (outcome: Outcome)
      requires Valid() && Sensible(State(), ResumeIt(i, args))
      modifies this, th, th.ring
      ensures forall f :: f in th.ring ==> f in old(th.ring) || fresh(f)
      ensures Valid() && (State(), outcome) == Perform(old(State()), ResumeIt(i, args))
    {
      hide Ring, Simple, Resumed, Arrived, PassingArg;
      ghost var before := State();
      InRing(i);
      forall k | 0 <= k < |fibers| && k != i ensures fibers[k] != fibers[i] { LinkedApart(i, k); }
      outcome := Resuming(i, args);
      if outcome == Switched { Enter(i, args); }
      Kept(before, i, outcome);
    }

    lemma InRing(i: nat)
      requires Linked() && i < |fibers|
      ensures fibers[i] in th.ring
    {
    }

    /** What a resume leaves is the new state. */
    lemma Kept(before: Calls, i: nat, outcome: Outcome)
      requires Linked() && i < |fibers| == before.count
      requires forall k: nat :: k in before.dead || k in before.begun ==> k < |fibers|
      requires forall k :: 0 <= k < |fibers| && k != i ==>
                 (k in before.dead <==> fibers[k].status == TERMINATED) && (k in before.begun <==> Begun(k))
      requires i in before.dead <==> fibers[i].status == TERMINATED
      requires if outcome == Switched then Begun(i) else i in before.begun <==> Begun(i)
      requires forall k :: 0 <= k < |before.chain| ==> before.chain[k] in before.begun
      requires ids == if outcome == Switched then before.chain + [i] else before.chain
      ensures Valid() && State().dead == before.dead
      ensures State().begun == if outcome == Switched then before.begun + {i} else before.begun
    {
      hide Script.Linked;
    }

    lemma LinkedApart(i: nat, k: nat)
      requires Linked() && i < |fibers| && k < |fibers|
      ensures fibers[i] == fibers[k] ==> i == k
    {
    }

    /** A fiber goes on that was resumed: its block begins, or its own switch returns. */
    method Enter(i: nat, ghost args: seq<Value>)
      requires Linked() && 0 < |ids| && ids[|ids| - 1] == i && fibers[i].status != TERMINATED
      requires Arrived(fibers[i].value, args) && fibers[i].argc == |args|
      modifies this`given, fibers[i]
      ensures Linked() && Begun(i) && fibers[i].status != TERMINATED
      ensures given == if old(Begun(i)) then Returned(PassingArg(args)) else Arguments(args)
    {
      hide Ring, Simple, Resumed, Apart, Arrived;
      assert th.fiber == fibers[i];
      if i != 0 && fibers[i].status == CREATED {
        assert fibers[i] != fibers[0] by { ApartAt(fibers, i); }
        var block := th.Start(args);
        given := Arguments(block);
      } else {
        given := Returned(fibers[i].value);
        ArrivedOnly(fibers[i].value, args);
      }
    }

    method DoYield(args: seq<Value>) returns (outcome: Outcome)
      requires Valid()
      modifies this, th, th.ring
      ensures forall f :: f in th.ring ==> f in old(th.ring) || fresh(f)
      ensures Valid() && (State(), outcome) == Perform(old(State()), YieldBack(args))
    {
      hide Ring, Simple, Resumed;
      ghost var before := State();
      outcome := th.Yield(args);
      if outcome == Switched {
        ids := ids[..|ids| - 1];
        given := Returned(th.fiber.value);
        ArrivedOnly(th.fiber.value, args);
      }
      assert State().dead == before.dead && State().begun == before.begun;
    }

    method DoReturn(v: Value) returns (outcome: Outcome)
      requires Valid() && Sensible(State(), Return(v))
      modifies this, th, th.ring
      ensures forall f :: f in th.ring ==> f in old(th.ring) || fresh(f)
      ensures Valid() && (State(), outcome) == Perform(old(State()), Return(v))
    {
      hide Ring, Simple, Resumed, Apart, Arrived, PassingArg;
      ghost var before, last := State(), ids[|ids| - 1];
      assert fibers[last] == th.fiber;
      forall k | 0 <= k < |fibers| && k != last ensures fibers[k] != fibers[last] { LinkedApart(last, k); }
      outcome := th.Terminate(v);
      ids := ids[..|ids| - 1];
      given := Returned(th.fiber.value);
      assert State().dead == before.dead + {last};
      assert State().begun == before.begun;
    }

    /** A whole run. */
    method Run(ops: seq<Op>)
      requires Valid() && SensibleRun(State(), ops)
      modifies this, th, th.ring
      ensures Valid() && State() == Performed(old(State()), ops)
    {
      hide Ring, Perform, Sensible, Script.State;
      assert ops[0..] == ops;
      for i := 0 to |ops|
        invariant Valid() && SensibleRun(State(), ops[i..])
        invariant Performed(State(), ops[i..]) == Performed(old(State()), ops)
        invariant forall f :: f in th.ring && f !in old(th.ring) ==> fresh(f)
      {
        assert ops[i..][1..] == ops[i + 1..];
        var _ := Do(ops[i]);
      }
    }
  }
}
