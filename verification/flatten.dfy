/** flatten in array.c: an explicit stack against recursion over a graph of arrays that may share and
    may loop. */
module Flatten {
  import opened Options

  type Id = nat

  datatype Elt = Leaf(v: int) | Sub(id: Id)

  /** The arrays that can be reached; nothing changes them while they are flattened. */
  type Heap = map<Id, seq<Elt>>

  ghost predicate Closed(h: Heap) {
    forall a, i :: a in h && 0 <= i < |h[a]| && h[a][i].Sub? ==> h[a][i].id in h
  }

  datatype Flat = Ok(elems: seq<Elt>) | Recursive

  function Join(a: Flat, b: Flat): Flat {
    if a.Ok? && b.Ok? then Ok(a.elems + b.elems) else Recursive
  }

  // ----- the recursive form -----

  predicate Apart(path: seq<Id>) {
    forall i, j :: 0 <= i < j < |path| ==> path[i] != path[j]
  }

  /** A way down: different arrays, the innermost last. */
  ghost predicate Path(h: Heap, path: seq<Id>) {
    path != [] && Apart(path) && forall i :: 0 <= i < |path| ==> path[i] in h
  }

  function Last(path: seq<Id>): Id
    requires path != []
  {
    path[|path| - 1]
  }

  lemma {:induction false} PathFits(keys: set<Id>, path: seq<Id>)
    requires Apart(path) && forall i :: 0 <= i < |path| ==> path[i] in keys
    ensures |path| <= |keys|
    decreases |path|
  {
    if path != [] {
      var n := |path| - 1;
      PathFits(keys - {path[n]}, path[..n]);
      assert |keys - {path[n]}| == |keys| - 1;
    }
  }

  /** Whether an element is left as it is at this depth; a negative level has no limit. */
  predicate Stays(e: Elt, depth: nat, level: int) {
    e.Leaf? || (level >= 0 && depth >= level)
  }

  lemma DeeperFits(h: Heap, path: seq<Id>, id: Id)
    requires Path(h, path) && id in h && id !in path
    ensures Path(h, path + [id]) && |path| < |h.Keys|
  {
    PathFits(h.Keys, path + [id]);
  }

  /** The innermost array's elements from i on, flattened. */
  ghost function FlatFrom(h: Heap, path: seq<Id>, i: nat, level: int): Flat
    requires Closed(h) && Path(h, path)
    decreases |h.Keys| - |path|, |h[Last(path)]| - i
  {
    PathFits(h.Keys, path);
    var ary := h[Last(path)];
    if i >= |ary| then Ok([])
    else if Stays(ary[i], |path| - 1, level) then Join(Ok([ary[i]]), FlatFrom(h, path, i + 1, level))
    else if ary[i].id in path then Recursive
    else
      DeeperFits(h, path, ary[i].id);
      Join(FlatFrom(h, path + [ary[i].id], 0, level), FlatFrom(h, path, i + 1, level))
  }

  /** How many turns the loop takes for it. */
  ghost function Turns(h: Heap, path: seq<Id>, i: nat, level: int): nat
    requires Closed(h) && Path(h, path)
    decreases |h.Keys| - |path|, |h[Last(path)]| - i
  {
    PathFits(h.Keys, path);
    var ary := h[Last(path)];
    if i >= |ary| then 1
    else if Stays(ary[i], |path| - 1, level) || ary[i].id in path then 1 + Turns(h, path, i + 1, level)
    else
      DeeperFits(h, path, ary[i].id);
      1 + Turns(h, path + [ary[i].id], 0, level) + Turns(h, path, i + 1, level)
  }

  // ----- the iterative form -----

  /** Everything still to come: the rest of the innermost array, then of the one around it, and so on. */
  ghost function Rest(h: Heap, path: seq<Id>, next: seq<nat>, level: int): Flat
    requires Closed(h) && |next| == |path| && (path != [] ==> Path(h, path))
    decreases |path|
  {
    if path == [] then Ok([])
    else
      var n := |path| - 1;
      assert n > 0 ==> Path(h, path[..n]);
      Join(FlatFrom(h, path, next[n], level), Rest(h, path[..n], next[..n], level))
  }

  ghost function AllTurns(h: Heap, path: seq<Id>, next: seq<nat>, level: int): nat
    requires Closed(h) && |next| == |path| && (path != [] ==> Path(h, path))
    decreases |path|
  {
    if path == [] then 0
    else
      var n := |path| - 1;
      assert n > 0 ==> Path(h, path[..n]);
      Turns(h, path, next[n], level) + AllTurns(h, path[..n], next[..n], level)
  }

  /** The stack holds an array and a position for every array around the current one. */
  datatype Entry = Array(id: Id) | Position(i: nat)

  ghost predicate Stacked(stack: seq<Entry>, path: seq<Id>, next: seq<nat>) {
    && path != [] && |next| == |path| && |stack| == 2 * (|path| - 1)
    && forall j :: 0 <= j < |path| - 1 ==> stack[2 * j] == Array(path[j]) && stack[2 * j + 1] == Position(next[j])
  }

  lemma JoinAssoc(a: Flat, b: Flat, c: Flat)
    ensures Join(Join(a, b), c) == Join(a, Join(b, c))
  {
    if a.Ok? && b.Ok? && c.Ok? { assert (a.elems + b.elems) + c.elems == a.elems + (b.elems + c.elems); }
  }

  /** Passing an element that stays. */
  lemma RestStays(h: Heap, path: seq<Id>, next: seq<nat>, level: int)
    requires Closed(h) && |next| == |path| && Path(h, path) && Last(next) < |h[Last(path)]|
    requires Stays(h[Last(path)][Last(next)], |path| - 1, level)
    ensures var n := |path| - 1; var e := h[Last(path)][next[n]]; var next' := next[..n] + [next[n] + 1];
            && Rest(h, path, next, level) == Join(Ok([e]), Rest(h, path, next', level))
            && AllTurns(h, path, next, level) == 1 + AllTurns(h, path, next', level)
  {
    var n := |path| - 1;
    var next' := next[..n] + [next[n] + 1];
    assert next'[..n] == next[..n];
    JoinAssoc(Ok([h[Last(path)][next[n]]]), FlatFrom(h, path, next[n] + 1, level),
              Rest(h, path[..n], next[..n], level));
  }

  /** Going down into an array that is not on the path. */
  lemma RestDown(h: Heap, path: seq<Id>, next: seq<nat>, level: int)
    requires Closed(h) && |next| == |path| && Path(h, path) && Last(next) < |h[Last(path)]|
    requires var e := h[Last(path)][Last(next)]; !Stays(e, |path| - 1, level) && e.id !in path
    ensures var n := |path| - 1;
            var e := h[Last(path)][next[n]];
            var path', next' := path + [e.id], next[..n] + [next[n] + 1, 0];
            && Path(h, path') && Rest(h, path, next, level) == Rest(h, path', next', level)
            && AllTurns(h, path, next, level) == 1 + AllTurns(h, path', next', level)
  {
    var n := |path| - 1;
    var e := h[Last(path)][next[n]];
    var path', next' := path + [e.id], next[..n] + [next[n] + 1, 0];
    DeeperFits(h, path, e.id);
    assert path'[..n + 1] == path && next'[..n + 1] == next[..n] + [next[n] + 1];
    assert (next[..n] + [next[n] + 1])[..n] == next[..n];
    JoinAssoc(FlatFrom(h, path', 0, level), FlatFrom(h, path, next[n] + 1, level),
              Rest(h, path[..n], next[..n], level));
  }

  /** Meeting an array that is on the path. */
  lemma RestRaises(h: Heap, path: seq<Id>, next: seq<nat>, level: int)
    requires Closed(h) && |next| == |path| && Path(h, path) && Last(next) < |h[Last(path)]|
    requires var e := h[Last(path)][Last(next)]; !Stays(e, |path| - 1, level) && e.id in path
    ensures Rest(h, path, next, level) == Recursive
  {
  }

  /** Being done with the innermost array. */
  lemma RestUp(h: Heap, path: seq<Id>, next: seq<nat>, level: int)
    requires Closed(h) && |next| == |path| && Path(h, path) && Last(next) >= |h[Last(path)]|
    ensures var n := |path| - 1;
            && (n > 0 ==> Path(h, path[..n]))
            && Rest(h, path, next, level) == Rest(h, path[..n], next[..n], level)
            && AllTurns(h, path, next, level) == 1 + AllTurns(h, path[..n], next[..n], level)
  {
    var n := |path| - 1;
    var r := Rest(h, path[..n], next[..n], level);
    assert r.Ok? ==> [] + r.elems == r.elems;
  }

  lemma StartAt(h: Heap, root: Id, level: int)
    requires Closed(h) && root in h
    ensures Path(h, [root]) && Join(Ok([]), Rest(h, [root], [0], level)) == FlatFrom(h, [root], 0, level)
  {
    var f := FlatFrom(h, [root], 0, level);
    assert [root][..0] == [] && f.Ok? ==> [] + (f.elems + []) == f.elems;
  }

  lemma StaysHere(e: Elt, depth: nat, level: int)
    ensures Stays(e, depth, level) <==> e.Leaf? || (level >= 0 && depth >= level)
  {
  }

  lemma Opened(h: Heap, root: Id, level: int)
    requires root in h
    ensures (exists j :: 0 <= j < |h[root]| && !Stays(h[root][j], 0, level))
            <==> level != 0 && exists j :: 0 <= j < |h[root]| && h[root][j].Sub?
  {
  }

  lemma NothingLeft(h: Heap, path: seq<Id>, next: seq<nat>, level: int)
    requires Closed(h) && |next| == |path| == 1 && Path(h, path)
    ensures Rest(h, path[..0], next[..0], level) == Ok([])
  {
  }

  // ----- what the recursive form says -----

  predicate Leaves(f: Flat) {
    f.Ok? ==> forall j :: 0 <= j < |f.elems| ==> f.elems[j].Leaf?
  }

  lemma JoinLeaves(a: Flat, b: Flat)
    requires Leaves(a) && Leaves(b)
    ensures Leaves(Join(a, b))
  {
  }

  /** Without a level only elements that are no arrays are left. */
  lemma {:induction false} AllFlat(h: Heap, path: seq<Id>, i: nat, level: int)
    requires Closed(h) && Path(h, path) && level < 0
    ensures Leaves(FlatFrom(h, path, i, level))
    decreases |h.Keys| - |path|, |h[Last(path)]| - i
  {
    PathFits(h.Keys, path);
    var ary := h[Last(path)];
    if i < |ary| {
      AllFlat(h, path, i + 1, level);
      if ary[i].Leaf? {
        JoinLeaves(Ok([ary[i]]), FlatFrom(h, path, i + 1, level));
      } else if ary[i].id !in path {
        DeeperFits(h, path, ary[i].id);
        AllFlat(h, path + [ary[i].id], 0, level);
        JoinLeaves(FlatFrom(h, path + [ary[i].id], 0, level), FlatFrom(h, path, i + 1, level));
      }
    }
  }

  // ----- which elements come out, and when it raises -----

  /** The array that a route leads to from array a: the positions of the arrays taken on the way down. */
  ghost function Reach(h: Heap, a: Id, route: seq<nat>): Option<Id>
    requires Closed(h) && a in h
    ensures Reach(h, a, route).Some? ==> Reach(h, a, route).value in h
    decreases |route|
  {
    if route == [] then Some(a)
    else if route[0] < |h[a]| && h[a][route[0]].Sub? then Reach(h, h[a][route[0]].id, route[1..])
    else None
  }

  /** Whether as many arrays may be opened; a negative level has no limit. */
  predicate Within(level: int, count: nat) {
    level < 0 || count <= level
  }

  /** The route leads from array a, itself opened at this depth, to the element e, which is no array or lies as
      deep as the level goes. */
  ghost predicate Kept(h: Heap, a: Id, depth: nat, level: int, route: seq<nat>, e: Elt): (kept: bool)
    requires Closed(h) && a in h
    ensures kept ==> route != []
  {
    && route != [] && Within(level, depth + |route| - 1)
    && var n := |route| - 1;
       var last := Reach(h, a, route[..n]);
       && last.Some? && route[n] < |h[last.value]| && e == h[last.value][route[n]]
       && (e.Leaf? || depth + n == level)
  }

  /** Lexicographic order of routes of which neither continues the other. */
  ghost predicate Before(r: seq<nat>, r': seq<nat>) {
    exists k :: 0 <= k < |r| && k < |r'| && r[..k] == r'[..k] && r[k] < r'[k]
  }

  /** The elements are those kept below array a from position i on, one for each route, in the order of the
      routes. */
  ghost predicate Listed(h: Heap, a: Id, depth: nat, i: nat, level: int, routes: seq<seq<nat>>, elems: seq<Elt>)
    requires Closed(h) && a in h
  {
    && |routes| == |elems|
    && (forall j :: 0 <= j < |routes| ==> Kept(h, a, depth, level, routes[j], elems[j]) && routes[j][0] >= i)
    && (forall j, k :: 0 <= j < k < |routes| ==> Before(routes[j], routes[k]))
    && (forall route, e :: Kept(h, a, depth, level, route, e) && route[0] >= i ==> route in routes)
  }

  lemma KeptHere(h: Heap, a: Id, depth: nat, level: int, k: nat, e: Elt)
    requires Closed(h) && a in h
    ensures Kept(h, a, depth, level, [k], e) <==>
            k < |h[a]| && e == h[a][k] && Within(level, depth) && (e.Leaf? || depth == level)
  {
    assert [k][..0] == [];
  }

  lemma KeptBelow(h: Heap, a: Id, depth: nat, level: int, k: nat, route: seq<nat>, e: Elt)
    requires Closed(h) && a in h && route != []
    ensures Kept(h, a, depth, level, [k] + route, e) <==>
            k < |h[a]| && h[a][k].Sub? && Kept(h, h[a][k].id, depth + 1, level, route, e)
  {
    var whole := [k] + route;
    assert whole[..|whole| - 1][1..] == route[..|route| - 1];
  }

  function Prefixed(k: nat, routes: seq<seq<nat>>): (r: seq<seq<nat>>)
    ensures |r| == |routes| && forall j :: 0 <= j < |r| ==> r[j] == [k] + routes[j]
  {
    seq(|routes|, j requires 0 <= j < |routes| => [k] + routes[j])
  }

  /** No element is left. */
  lemma ListedNone(h: Heap, a: Id, depth: nat, i: nat, level: int)
    requires Closed(h) && a in h && i >= |h[a]|
    ensures Listed(h, a, depth, i, level, [], [])
  {
    forall route, e | Kept(h, a, depth, level, route, e) && route[0] >= i ensures false {
      KeptSplit(h, a, depth, level, route, e);
    }
  }

  /** A route starts with a position of the array. */
  lemma KeptSplit(h: Heap, a: Id, depth: nat, level: int, route: seq<nat>, e: Elt)
    requires Closed(h) && a in h && Kept(h, a, depth, level, route, e)
    ensures route == [route[0]] + route[1..] && route[0] < |h[a]|
    ensures route[1..] == [] ==> e == h[a][route[0]] && (e.Leaf? || depth == level)
    ensures route[1..] != [] ==>
              && h[a][route[0]].Sub? && Within(level, depth + 1)
              && Kept(h, h[a][route[0]].id, depth + 1, level, route[1..], e)
  {
    hide Kept;
    assert route != [] by { KeptStarts(h, a, depth, level, route, e); }
    assert route == [route[0]] + route[1..];
    if route[1..] == [] {
      assert route == [route[0]];
      KeptHere(h, a, depth, level, route[0], e);
    } else {
      KeptBelow(h, a, depth, level, route[0], route[1..], e);
      KeptStarts(h, a, depth, level, route, e);
    }
  }

  lemma KeptStarts(h: Heap, a: Id, depth: nat, level: int, route: seq<nat>, e: Elt)
    requires Closed(h) && a in h && Kept(h, a, depth, level, route, e)
    ensures route != [] && Within(level, depth + |route| - 1)
  {
  }

  /** An element that stays comes first. */
  lemma ListedStays(h: Heap, a: Id, depth: nat, i: nat, level: int, routes: seq<seq<nat>>, elems: seq<Elt>)
    requires Closed(h) && a in h && i < |h[a]| && Within(level, depth) && (h[a][i].Leaf? || depth == level)
    requires Listed(h, a, depth, i + 1, level, routes, elems)
    ensures Listed(h, a, depth, i, level, [[i]] + routes, [h[a][i]] + elems)
  {
    hide Kept;
    var longer := [[i]] + routes;
    KeptHere(h, a, depth, level, i, h[a][i]);
    forall k | 0 <= k < |routes| ensures Before([i], routes[k]) {
      KeptStarts(h, a, depth, level, routes[k], elems[k]);
      assert [i][..0] == routes[k][..0];
    }
    forall route, e | Kept(h, a, depth, level, route, e) && route[0] >= i ensures route in longer {
      KeptSplit(h, a, depth, level, route, e);
      if route[0] == i {
        assert longer[0] == route;
      } else {
        var j :| 0 <= j < |routes| && routes[j] == route;
        assert longer[j + 1] == route;
      }
    }
  }

  /** The elements below an array that is opened come before those behind it. */
  lemma ListedOpened(h: Heap, a: Id, depth: nat, i: nat, level: int, inner: seq<seq<nat>>, elems1: seq<Elt>,
                     routes: seq<seq<nat>>, elems2: seq<Elt>)
    requires Closed(h) && a in h && i < |h[a]| && h[a][i].Sub? && (level < 0 || depth < level)
    requires Listed(h, h[a][i].id, depth + 1, 0, level, inner, elems1)
    requires Listed(h, a, depth, i + 1, level, routes, elems2)
    ensures Listed(h, a, depth, i, level, Prefixed(i, inner) + routes, elems1 + elems2)
  {
    hide Kept, Before;
    var sub, longer, elems := h[a][i].id, Prefixed(i, inner) + routes, elems1 + elems2;
    var n := |inner|;
    forall j | 0 <= j < |longer| ensures Kept(h, a, depth, level, longer[j], elems[j]) && longer[j][0] >= i {
      if j < n {
        KeptStarts(h, sub, depth + 1, level, inner[j], elems1[j]);
        KeptBelow(h, a, depth, level, i, inner[j], elems1[j]);
      }
    }
    InOrder(i, inner, routes);
    forall route, e | Kept(h, a, depth, level, route, e) && route[0] >= i ensures route in longer {
      KeptSplit(h, a, depth, level, route, e);
      if route[0] == i { AmongInner(i, inner, routes, route); }
    }
  }

  lemma AmongInner(i: nat, inner: seq<seq<nat>>, routes: seq<seq<nat>>, route: seq<nat>)
    requires route != [] && route == [i] + route[1..] && route[1..] in inner
    ensures route in Prefixed(i, inner) + routes
  {
    var j :| 0 <= j < |inner| && inner[j] == route[1..];
    assert (Prefixed(i, inner) + routes)[j] == route;
  }

  /** Routes through position i come before those through later ones. */
  lemma InOrder(i: nat, inner: seq<seq<nat>>, routes: seq<seq<nat>>)
    requires forall j, k :: 0 <= j < k < |inner| ==> Before(inner[j], inner[k])
    requires forall j, k :: 0 <= j < k < |routes| ==> Before(routes[j], routes[k])
    requires forall j :: 0 <= j < |routes| ==> routes[j] != [] && routes[j][0] >= i + 1
    ensures var longer := Prefixed(i, inner) + routes;
            forall j, k :: 0 <= j < k < |longer| ==> Before(longer[j], longer[k])
  {
    hide Before;
    var longer, n := Prefixed(i, inner) + routes, |inner|;
    forall j, k | 0 <= j < k < |longer| ensures Before(longer[j], longer[k]) {
      if k < n {
        BeforePrefixed(i, inner[j], inner[k]);
      } else if j < n {
        BeforeFirst(longer[j], longer[k]);
      } else {
        assert longer[j] == routes[j - n] && longer[k] == routes[k - n];
      }
    }
  }

  lemma BeforeFirst(r: seq<nat>, r': seq<nat>)
    requires r != [] && r' != [] && r[0] < r'[0]
    ensures Before(r, r')
  {
    assert r[..0] == r'[..0];
  }

  lemma BeforePrefixed(i: nat, r: seq<nat>, r': seq<nat>)
    requires Before(r, r')
    ensures Before([i] + r, [i] + r')
  {
    var k :| 0 <= k < |r| && k < |r'| && r[..k] == r'[..k] && r[k] < r'[k];
    var s, s' := [i] + r, [i] + r';
    assert s[..k + 1] == [i] + r[..k] && s'[..k + 1] == [i] + r'[..k];
  }

  /** What the recursive form gives is what the routes say. */
  lemma {:induction false} FlatListed(h: Heap, path: seq<Id>, i: nat, level: int) returns (routes: seq<seq<nat>>)
    requires Closed(h) && Path(h, path) && Within(level, |path| - 1) && FlatFrom(h, path, i, level).Ok?
    ensures Listed(h, Last(path), |path| - 1, i, level, routes, FlatFrom(h, path, i, level).elems)
    decreases |h.Keys| - |path|, |h[Last(path)]| - i
  {
    hide Listed, Kept;
    PathFits(h.Keys, path);
    var a, depth := Last(path), |path| - 1;
    if i >= |h[a]| {
      routes := [];
      ListedNone(h, a, depth, i, level);
    } else {
      var behind := FlatListed(h, path, i + 1, level);
      var rest := FlatFrom(h, path, i + 1, level).elems;
      if Stays(h[a][i], depth, level) {
        routes := [[i]] + behind;
        ListedStays(h, a, depth, i, level, behind, rest);
      } else {
        var sub := h[a][i].id;
        DeeperFits(h, path, sub);
        var inner := FlatListed(h, path + [sub], 0, level);
        routes := Prefixed(i, inner) + behind;
        ListedOpened(h, a, depth, i, level, inner, FlatFrom(h, path + [sub], 0, level).elems, behind, rest);
      }
    }
  }

  /** The route opens no more arrays than the level allows and ends at one that is open already: one of path, or
      one that it came by itself. */
  ghost predicate Revisits(h: Heap, path: seq<Id>, level: int, route: seq<nat>): (b: bool)
    requires Closed(h) && Path(h, path)
    ensures b ==> route != []
  {
    && route != [] && Within(level, |path| - 1 + |route|)
    && var end := Reach(h, Last(path), route);
       && end.Some?
       && (end.value in path || exists k :: 0 < k < |route| && Reach(h, Last(path), route[..k]) == end)
  }

  lemma RevisitsHere(h: Heap, path: seq<Id>, level: int, k: nat)
    requires Closed(h) && Path(h, path)
    ensures Revisits(h, path, level, [k]) <==>
            && Within(level, |path|) && k < |h[Last(path)]| && h[Last(path)][k].Sub?
            && h[Last(path)][k].id in path
  {
    assert [k][1..] == [];
    if k < |h[Last(path)]| && h[Last(path)][k].Sub? { ReachEmpty(h, h[Last(path)][k].id); }
  }

  lemma ReachOn(h: Heap, a: Id, k: nat, route: seq<nat>)
    requires Closed(h) && a in h && k < |h[a]| && h[a][k].Sub?
    ensures Reach(h, a, [k] + route) == Reach(h, h[a][k].id, route)
    ensures forall m :: 0 <= m <= |route| ==> ([k] + route)[..m + 1] == [k] + route[..m]
  {
    assert ([k] + route)[1..] == route;
  }

  lemma RevisitsBelow(h: Heap, path: seq<Id>, level: int, k: nat, route: seq<nat>)
    requires Closed(h) && Path(h, path) && route != [] && k < |h[Last(path)]| && h[Last(path)][k].Sub?
    requires h[Last(path)][k].id !in path
    ensures Path(h, path + [h[Last(path)][k].id])
    ensures Revisits(h, path, level, [k] + route) <==> Revisits(h, path + [h[Last(path)][k].id], level, route)
  {
    hide Reach;
    var a, sub, whole := Last(path), h[Last(path)][k].id, [k] + route;
    DeeperFits(h, path, sub);
    ReachOn(h, a, k, route);
    forall m | 0 <= m <= |route| ensures Reach(h, a, whole[..m + 1]) == Reach(h, sub, route[..m]) {
      ReachOn(h, a, k, route[..m]);
    }
    ReachEmpty(h, sub);
    assert whole[..1] == whole[..0 + 1] && route[..0] == [];
    var end := Reach(h, a, whole);
    if exists m :: 0 < m < |whole| && Reach(h, a, whole[..m]) == end {
      var m :| 0 < m < |whole| && Reach(h, a, whole[..m]) == end;
      assert whole[..m] == whole[..(m - 1) + 1];
      assert Reach(h, sub, route[..m - 1]) == end;
    }
    if exists m :: 0 < m < |route| && Reach(h, sub, route[..m]) == end {
      var m :| 0 < m < |route| && Reach(h, sub, route[..m]) == end;
      assert Reach(h, a, whole[..m + 1]) == end;
    }
  }

  lemma ReachEmpty(h: Heap, a: Id)
    requires Closed(h) && a in h
    ensures Reach(h, a, []) == Some(a)
  {
  }

  ghost predicate RevisitsFrom(h: Heap, path: seq<Id>, i: nat, level: int)
    requires Closed(h) && Path(h, path)
  {
    exists route :: Revisits(h, path, level, route) && route[0] >= i
  }

  /** Flattening raises exactly when some way down, within the level, meets an array that is still open;
      an array that is merely met twice does no harm. */
  lemma {:induction false} RaisesOnLoops(h: Heap, path: seq<Id>, i: nat, level: int)
    requires Closed(h) && Path(h, path) && Within(level, |path| - 1)
    ensures FlatFrom(h, path, i, level) == Recursive <==> RevisitsFrom(h, path, i, level)
    decreases |h.Keys| - |path|, |h[Last(path)]| - i
  {
    hide Revisits;
    PathFits(h.Keys, path);
    var ary := h[Last(path)];
    if i < |ary| {
      RaisesOnLoops(h, path, i + 1, level);
      RevisitsSplit(h, path, i, level);
      if !Stays(ary[i], |path| - 1, level) && ary[i].id !in path {
        DeeperFits(h, path, ary[i].id);
        RaisesOnLoops(h, path + [ary[i].id], 0, level);
      }
    } else {
      forall route | Revisits(h, path, level, route) ensures route[0] < i { RevisitsStarts(h, path, level, route); }
    }
  }

  lemma RevisitsStarts(h: Heap, path: seq<Id>, level: int, route: seq<nat>)
    requires Closed(h) && Path(h, path) && Revisits(h, path, level, route)
    ensures route == [route[0]] + route[1..] && Within(level, |path| - 1 + |route|)
    ensures route[0] < |h[Last(path)]| && h[Last(path)][route[0]].Sub?
  {
  }

  /** A way round goes through this element or through a later one. */
  lemma RevisitsSplit(h: Heap, path: seq<Id>, i: nat, level: int)
    requires Closed(h) && Path(h, path) && i < |h[Last(path)]| && Within(level, |path| - 1)
    ensures var e := h[Last(path)][i];
            RevisitsFrom(h, path, i, level) <==>
            RevisitsFrom(h, path, i + 1, level)
            || (!Stays(e, |path| - 1, level)
                && (e.id in path || (e.id !in path
                                     && (DeeperFits(h, path, e.id); RevisitsFrom(h, path + [e.id], 0, level)))))
  {
    hide Revisits;
    var e := h[Last(path)][i];
    forall route | Revisits(h, path, level, route) ensures route == [route[0]] + route[1..] {
      RevisitsStarts(h, path, level, route);
    }
    if RevisitsFrom(h, path, i, level) && !RevisitsFrom(h, path, i + 1, level) {
      var route :| Revisits(h, path, level, route) && route[0] >= i;
      RevisitsStarts(h, path, level, route);
      if route[1..] == [] {
        assert route == [i];
        RevisitsHere(h, path, level, i);
      } else if e.id !in path {
        DeeperFits(h, path, e.id);
        RevisitsBelow(h, path, level, i, route[1..]);
        assert Revisits(h, path + [e.id], level, route[1..]) && route[1..][0] >= 0;
      }
    }
    if !Stays(e, |path| - 1, level) {
      RevisitsHere(h, path, level, i);
      if e.id in path {
        assert Revisits(h, path, level, [i]);
      } else {
        DeeperFits(h, path, e.id);
        if RevisitsFrom(h, path + [e.id], 0, level) {
          var route :| Revisits(h, path + [e.id], level, route) && route[0] >= 0;
          RevisitsStarts(h, path + [e.id], level, route);
          RevisitsBelow(h, path, level, i, route);
          var longer := [i] + route;
          assert Revisits(h, path, level, longer) && longer[0] == i;
        }
      }
    }
  }

  /** What the recursive form gives from the root on, by routes. */
  lemma ByRoutes(h: Heap, root: Id, level: int)
    requires Closed(h) && root in h
    ensures FlatFrom(h, [root], 0, level) == Recursive <==> RevisitsFrom(h, [root], 0, level)
    ensures var f := FlatFrom(h, [root], 0, level); f.Ok? ==>
            exists routes :: Listed(h, root, 0, 0, level, routes, f.elems)
  {
    hide FlatFrom, Listed, RevisitsFrom;
    RaisesOnLoops(h, [root], 0, level);
    if FlatFrom(h, [root], 0, level).Ok? { var routes := FlatListed(h, [root], 0, level); }
  }

  // ----- the method -----

  /** flatten: the elements kept within the level, in the order of their routes, and whether any array was
      opened; it raises exactly when a route comes to an array that is still open. */
  method FlattenArray(h: Heap, root: Id, level: int) returns (result: Flat, modified: bool)
    requires Closed(h) && root in h
    ensures result == FlatFrom(h, [root], 0, level)
    ensures result == Recursive <==> RevisitsFrom(h, [root], 0, level)
    ensures result.Ok? ==> exists routes :: Listed(h, root, 0, 0, level, routes, result.elems)
    ensures modified <==> level != 0 && exists i :: 0 <= i < |h[root]| && h[root][i].Sub?
  {
    hide FlatFrom, Turns, Rest, AllTurns, Stays, Listed, RevisitsFrom;
    var stack: seq<Entry>, out: seq<Elt>, memo := [], [], {root};
    var ary, i := root, 0;
    modified := false;
    ghost var path, next := [root], [0];
    StartAt(h, root, level);
    ByRoutes(h, root, level);
    while true
      invariant Path(h, path) && Stacked(stack, path, next) && ary == Last(path) && i == Last(next)
      invariant memo == set a | a in path
      invariant Join(Ok(out), Rest(h, path, next, level)) == FlatFrom(h, [root], 0, level)
      invariant path[0] == root && next[0] <= |h[root]|
      invariant modified <==> exists j :: 0 <= j < next[0] && !Stays(h[root][j], 0, level)
      invariant |path| > 1 ==> modified
      decreases AllTurns(h, path, next, level)
    {
      ghost var n := |path| - 1;
      if i < |h[ary]| {
        var elt := h[ary][i];
        i := i + 1;
        if elt.Leaf? || (level >= 0 && |stack| / 2 >= level) {
          StaysHere(elt, n, level);
          RestStays(h, path, next, level);
          JoinAssoc(Ok(out), Ok([elt]), Rest(h, path, next[..n] + [next[n] + 1], level));
          out := out + [elt];
          next := next[..n] + [next[n] + 1];
        } else {
          StaysHere(elt, n, level);
          modified := true;
          assert n == 0 ==> !Stays(h[root][next[0]], 0, level);
          if elt.id in memo {
            RestRaises(h, path, next, level);
            result := Recursive;
            Opened(h, root, level);
            return;
          }
          RestDown(h, path, next, level);
          memo := memo + {elt.id};
          stack := stack + [Array(ary), Position(i)];
          ary, i := elt.id, 0;
          path, next := path + [elt.id], next[..n] + [next[n] + 1, 0];
        }
      } else {
        RestUp(h, path, next, level);
        if |stack| == 0 {
          NothingLeft(h, path, next, level);
          result := Ok(out);
          assert out + [] == out;
          Opened(h, root, level);
          return;
        }
        memo := memo - {ary};
        assert stack[2 * (n - 1)] == Array(path[n - 1]) && stack[2 * (n - 1) + 1] == Position(next[n - 1]);
        i := stack[|stack| - 1].i;
        ary := stack[|stack| - 2].id;
        stack := stack[..|stack| - 2];
        path, next := path[..n], next[..n];
      }
    }
  }
}
