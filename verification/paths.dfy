/** file_expand_path on Unix: one pass over a buffer against a stack of path components. */
module Paths {

  // ----- components -----

  /** The end of the component that starts at b. */
  function EndOf(s: string, b: nat): (e: nat)
    requires b <= |s|
    ensures b <= e <= |s| && (e < |s| ==> s[e] == '/') && forall i :: b <= i < e ==> s[i] != '/'
    decreases |s| - b
  {
    if b == |s| || s[b] == '/' then b else EndOf(s, b + 1)
  }

  /** What a component does to the components so far: empty and . do nothing, .. takes the last one away
      but stays at the root. */
  function Enter(st: seq<string>, c: string): seq<string> {
    if c == "" || c == "." then st
    else if c == ".." then (if st == [] then [] else st[..|st| - 1])
    else st + [c]
  }

  /** The components left when the path from b on has been entered. */
  function Walk(st: seq<string>, s: string, b: nat): seq<string>
    requires b <= |s|
    decreases |s| - b
  {
    var e := EndOf(s, b);
    var st1 := Enter(st, s[b..e]);
    if e < |s| then Walk(st1, s, e + 1) else st1
  }

  predicate Proper(c: string) {
    c != "" && c != "." && c != ".." && '/' !in c
  }

  predicate AllProper(st: seq<string>) {
    forall i :: 0 <= i < |st| ==> Proper(st[i])
  }

  lemma {:induction false} WalkProper(st: seq<string>, s: string, b: nat)
    requires b <= |s| && AllProper(st)
    ensures AllProper(Walk(st, s, b))
    decreases |s| - b
  {
    hide AllProper, Enter;
    var e := EndOf(s, b);
    EnterKeeps(st, s[b..e]);
    if e < |s| { WalkProper(Enter(st, s[b..e]), s, e + 1); }
  }

  lemma EnterKeeps(st: seq<string>, c: string)
    requires AllProper(st) && '/' !in c
    ensures AllProper(Enter(st, c))
  {
  }

  /** Each component behind a slash. */
  function Render(st: seq<string>): string
    decreases |st|
  {
    if st == [] then "" else Render(st[..|st| - 1]) + ("/" + st[|st| - 1])
  }

  /** The normal form of an absolute path. */
  function Shown(st: seq<string>): string {
    if st == [] then "/" else Render(st)
  }

  lemma RenderMore(st: seq<string>, c: string)
    ensures Render(st + [c]) == Render(st) + ("/" + c)
  {
    assert (st + [c])[..|st|] == st;
  }

  // ----- the last separator -----

  /** A run of separators with something behind it starts at i. */
  ghost predicate RunStart(path: string, i: nat) {
    && i < |path| && path[i] == '/' && (i == 0 || path[i - 1] != '/')
    && exists j :: i < j < |path| && path[j] != '/'
  }

  /** rb_path_last_separator */
  method LastSeparator(path: string) returns (last: int)
    ensures -1 <= last < |path|
    ensures last >= 0 ==> RunStart(path, last)
    ensures forall i: nat :: i > last ==> !RunStart(path, i)
  {
    last := -1;
    var p := 0;
    while p < |path|
      invariant p <= |path| && -1 <= last < |path| && (last < p || last == -1)
      invariant last >= 0 ==> RunStart(path, last)
      invariant forall i: nat :: last < i < p ==> !RunStart(path, i)
      invariant p > 0 && p < |path| ==> !(path[p - 1] == '/' && path[p] == '/')
      decreases |path| - p
    {
      if path[p] == '/' {
        var tmp := p;
        p := p + 1;
        while p < |path| && path[p] == '/'
          invariant tmp < p <= |path| && forall j :: tmp <= j < p ==> path[j] == '/'
        {
          p := p + 1;
        }
        if p == |path| { break; }
        assert RunStart(path, tmp);
        last := tmp;
      } else {
        p := p + 1;
      }
    }
  }

  lemma RenderParts(st: seq<string>)
    requires st != [] && AllProper(st)
    ensures var n, front := |st| - 1, Render(st[..|st| - 1]);
            && Render(st) == front + ("/" + st[n]) && st[n] != "" && '/' !in st[n] && AllProper(st[..n])
            && (front != "" ==> front[|front| - 1] != '/')
  {
    var front := st[..|st| - 1];
    if front != [] {
      var m := |front| - 1;
      assert Render(front) == Render(front[..m]) + ("/" + front[m]);
      assert Proper(front[m]);
    }
  }

  lemma RenderNotOne(st: seq<string>)
    requires AllProper(st)
    ensures |Render(st)| != 1 && (st != [] ==> |Render(st)| >= 2)
  {
    if st != [] { RenderParts(st); }
  }

  // ----- the loop -----

  /** BUFCHECK: a buffer twice as large, as often as needed. */
  method Room(buf: array<char>, need: nat) returns (r: array<char>)
    requires buf.Length > 0
    ensures r.Length > need && (r == buf || fresh(r)) && r.Length >= buf.Length && r[..buf.Length] == buf[..]
  {
    var buflen := buf.Length;
    while need >= buflen
      invariant buflen >= buf.Length > 0
      decreases need - buflen
    {
      buflen := buflen * 2;
    }
    if buflen == buf.Length { return buf; }
    r := new char[buflen](i requires 0 <= i < buflen reads buf => if i < buf.Length then buf[i] else '\0');
  }

  /** memcpy of s[b..e] behind the separator at p, with spare places left behind it. */
  method Append(buf: array<char>, p: nat, s: string, b: nat, e: nat, spare: nat) returns (r: array<char>, q: nat)
    requires p < buf.Length && b < e <= |s|
    modifies buf
    ensures r.Length >= buf.Length && (r == buf || fresh(r)) && q == p + 1 + (e - b) && q + spare <= r.Length
    ensures r[..q] == old(buf[..p + 1]) + s[b..e]
  {
    r := Room(buf, p + (e - b) + spare);
    for i := 0 to e - b
      invariant r[..p + 1 + i] == old(buf[..p + 1]) + s[b..b + i]
    {
      ghost var before := r[..p + 1 + i];
      r[p + 1 + i] := s[b + i];
      assert r[..p + 1 + i + 1] == before + [s[b + i]];
      assert s[b..b + i + 1] == s[b..b + i] + [s[b + i]];
    }
    q := p + 1 + (e - b);
  }

  /** Whether a component ends at j. */
  predicate Ends(s: string, j: nat) { j >= |s| || s[j] == '/' }

  /** The component that starts at b is neither . nor .. */
  predicate NoDots(s: string, b: nat) {
    b < |s| && s[b] == '.' ==> !Ends(s, b + 1) && (s[b + 1] == '.' ==> !Ends(s, b + 2))
  }

  lemma EndIs(s: string, b: nat, e: nat)
    requires b <= e <= |s| && (e < |s| ==> s[e] == '/') && forall i :: b <= i < e ==> s[i] != '/'
    ensures EndOf(s, b) == e
  {
  }

  // ----- more than one leading slash -----

  /** Where an expansion stands: how many slashes more than one it starts with, the components behind
      them, and whether those slashes were given up when the last component was. */
  datatype Spot = Spot(lead: nat, st: seq<string>, lost: bool)

  /** Back to the run of slashes before the last component: that is the whole leading run when the
      component is the only one. */
  function Up(w: Spot): Spot {
    if w.st == [] then w
    else if |w.st| == 1 then Spot(0, [], w.lead > 0)
    else Spot(w.lead, w.st[..|w.st| - 1], false)
  }

  function Go(w: Spot, c: string): Spot {
    if c == "" || c == "." then w else if c == ".." then Up(w) else Spot(w.lead, w.st + [c], false)
  }

  function Tour(w: Spot, s: string, b: nat): Spot
    requires b <= |s|
    decreases |s| - b
  {
    var e := EndOf(s, b);
    var w1 := Go(w, s[b..e]);
    if e < |s| then Tour(w1, s, e + 1) else w1
  }

  function Slashes(n: nat): (r: string)
    ensures |r| == n && forall i :: 0 <= i < n ==> r[i] == '/'
  {
    seq(n, _ => '/')
  }

  function Written(w: Spot): string {
    Slashes(w.lead) + Render(w.st)
  }

  /** How often a walk comes back to no components. */
  function Returns(st: seq<string>, s: string, b: nat): nat
    requires b <= |s|
    decreases |s| - b
  {
    var e := EndOf(s, b);
    var st1 := Enter(st, s[b..e]);
    (if st != [] && st1 == [] then 1 else 0) + if e < |s| then Returns(st1, s, e + 1) else 0
  }

  /** What a path expands to behind lead extra slashes and the components st: the first time it comes back
      to the root the extra slashes are gone, and nothing at all is left if that was the end of it. */
  function Landing(lead: nat, st: seq<string>, s: string, b: nat): string
    requires b <= |s|
  {
    var st1, k := Walk(st, s, b), Returns(st, s, b);
    if lead == 0 || k >= 2 || (k == 1 && st1 != []) then Shown(st1)
    else if k == 1 then ""
    else if st1 == [] then Slashes(lead + 1)
    else Slashes(lead) + Render(st1)
  }

  ghost predicate Sound(w: Spot) {
    AllProper(w.st) && (w.lost ==> w.lead == 0 && w.st == [])
  }

  lemma TourShape(w: Spot, s: string, b: nat)
    requires b <= |s|
    ensures var e := EndOf(s, b);
            var w1 := Go(w, s[b..e]);
            Tour(w, s, b) == if e < |s| then Tour(w1, s, e + 1) else w1
  {
    hide EndOf, Go;
  }

  lemma WalkShape(st: seq<string>, s: string, b: nat)
    requires b <= |s|
    ensures var e := EndOf(s, b);
            var st1 := Enter(st, s[b..e]);
            && Walk(st, s, b) == (if e < |s| then Walk(st1, s, e + 1) else st1)
            && Returns(st, s, b)
               == (if st != [] && st1 == [] then 1 else 0) + if e < |s| then Returns(st1, s, e + 1) else 0
  {
    hide EndOf, Enter;
  }

  lemma GoEnter(w: Spot, c: string)
    requires Sound(w) && '/' !in c
    ensures var w1 := Go(w, c);
            && Sound(w1) && w1.st == Enter(w.st, c)
            && (if w.st != [] && w1.st == [] then w1.lead == 0 && (w1.lost <==> w.lead > 0)
                else w1.lead == w.lead && (w1.lost <==> w.lost && w1.st == []))
  {
  }

  /** What the walk says of where the tour ends. */
  lemma {:induction false} TourWalk(w: Spot, s: string, b: nat)
    requires b <= |s| && Sound(w)
    ensures var w1, k := Tour(w, s, b), Returns(w.st, s, b);
            && Sound(w1) && w1.st == Walk(w.st, s, b) && w1.lead == (if k == 0 then w.lead else 0)
            && (w1.lost <==> w1.st == [] && if k == 0 then w.lost else k == 1 && w.lead > 0)
            && (k == 0 && w1.st == [] ==> w.st == [])
    decreases |s| - b
  {
    hide EndOf, Enter, Go, Tour, Walk, Returns, AllProper;
    var e := EndOf(s, b);
    TourShape(w, s, b);
    WalkShape(w.st, s, b);
    GoEnter(w, s[b..e]);
    if e < |s| { TourWalk(Go(w, s[b..e]), s, e + 1); }
  }

  /** At the end of a component that is no dots, it is entered as it stands. */
  lemma TourOrdinary(w: Spot, s: string, b: nat, e: nat)
    requires b < e <= |s| && (e < |s| ==> s[e] == '/') && NoDots(s, b) && forall i :: b <= i < e ==> s[i] != '/'
    ensures Proper(s[b..e])
    ensures var w1 := Spot(w.lead, w.st + [s[b..e]], false); Tour(w, s, b) == if e < |s| then Tour(w1, s, e + 1) else w1
  {
    EndIs(s, b, e);
    assert s[b..e][0] == s[b];
    if e - b == 2 { assert s[b..e][1] == s[b + 1]; }
  }

  lemma TourEmpty(w: Spot, s: string, b: nat)
    requires b < |s| && s[b] == '/'
    ensures Tour(w, s, b) == Tour(w, s, b + 1)
  {
  }

  lemma TourDot(w: Spot, s: string, b: nat)
    requires b < |s| && s[b] == '.' && Ends(s, b + 1)
    ensures Tour(w, s, b) == if b + 1 < |s| then Tour(w, s, b + 2) else w
  {
    EndIs(s, b, b + 1);
    assert s[b..b + 1] == ".";
  }

  lemma TourDots(w: Spot, s: string, b: nat)
    requires b + 1 < |s| && s[b] == '.' && s[b + 1] == '.' && Ends(s, b + 2)
    ensures Tour(w, s, b) == if b + 2 < |s| then Tour(Up(w), s, b + 3) else Up(w)
  {
    EndIs(s, b, b + 2);
    assert s[b..b + 2] == "..";
  }

  lemma TourEnd(w: Spot, s: string)
    ensures Tour(w, s, |s|) == w
  {
    assert s[|s|..|s|] == "";
  }

  // ----- the buffer -----

  /** The buffer up to p holds what the spot says, and behind it what the end of the expansion looks at. */
  ghost predicate Shows(buf: array<char>, p: nat, w: Spot)
    reads buf
  {
    && p <= buf.Length && buf[..p] == Written(w) && Sound(w)
    && (w.st == [] ==> p + 1 < buf.Length && buf[p] == '/' && (buf[p + 1] == '/' <==> w.lost))
  }

  /** With the separator for the next component. */
  ghost predicate Stands(buf: array<char>, p: nat, w: Spot)
    reads buf
  {
    Shows(buf, p, w) && p < buf.Length && buf[p] == '/'
  }

  lemma RenderStart(st: seq<string>)
    requires st != [] && AllProper(st)
    ensures |Render(st)| >= 2 && Render(st)[0] == '/' && Render(st)[1] != '/'
    decreases |st|
  {
    RenderParts(st);
    if |st| > 1 { RenderStart(st[..|st| - 1]); }
  }

  /** The last separator of what is written is the one before the last component, or the start of the
      leading run if there is only one. */
  lemma LastWritten(w: Spot, last: int)
    requires AllProper(w.st)
    requires -1 <= last < |Written(w)| && (last >= 0 ==> RunStart(Written(w), last))
    requires forall i: nat :: i > last ==> !RunStart(Written(w), i)
    ensures last == if w.st == [] then -1 else if |w.st| == 1 then 0 else w.lead + |Render(w.st[..|w.st| - 1])|
  {
    var path := Written(w);
    if w.st == [] {
      assert forall j :: 0 <= j < |path| ==> path[j] == '/';
    } else {
      RenderParts(w.st);
      var front := Render(w.st[..|w.st| - 1]);
      var c, k := w.st[|w.st| - 1], if |w.st| == 1 then 0 else w.lead + |front|;
      if |w.st| > 1 { RenderStart(w.st[..|w.st| - 1]); }
      var q := w.lead + |front|;
      assert path == Slashes(w.lead) + front + ("/" + c);
      assert path[q] == '/' && path[q + 1] == c[0];
      assert forall j :: q < j < |path| ==> path[j] == c[j - q - 1] && path[j] != '/';
      assert RunStart(path, k);
    }
  }

  /** .. goes back to the last separator, or stays. */
  method Parent(buf: array<char>, p: nat, ghost w: Spot) returns (q: nat)
    requires Stands(buf, p, w)
    modifies buf
    ensures Stands(buf, q, Up(w))
  {
    ghost var was := buf[..];
    hide Render, RunStart, AllProper;
    buf[p] := '\0';
    assert buf[..p] == was[..p];
    var n := LastSeparator(buf[..p]);
    LastWritten(w, n);
    if n < 0 {
      buf[p] := '/';
      q := p;
      assert buf[..] == was;
      assert Written(w) == was[..p];
    } else {
      q := n;
      UpWritten(w, was, p);
      assert buf[..n] == was[..n] && buf[n] == was[n];
      assert n + 1 < p ==> buf[n + 1] == was[n + 1];
    }
  }

  /** What is left in front of the last component, and what stands behind it. */
  lemma UpWritten(w: Spot, was: string, p: nat)
    requires Sound(w) && w.st != [] && p <= |was| && was[..p] == Written(w)
    ensures var n := if |w.st| == 1 then 0 else w.lead + |Render(w.st[..|w.st| - 1])|;
            && n + 1 < p && was[..n] == Written(Up(w)) && was[n] == '/' && Sound(Up(w))
            && (|w.st| == 1 ==> (was[1] == '/' <==> w.lead > 0))
  {
    RenderParts(w.st);
    var front, c := Render(w.st[..|w.st| - 1]), w.st[|w.st| - 1];
    assert Written(w) == Slashes(w.lead) + front + ("/" + c);
    assert forall i :: 0 <= i < p ==> was[i] == was[..p][i] == Written(w)[i];
    var n := if |w.st| == 1 then 0 else w.lead + |front|;
    assert was[..n] == Written(w)[..n];
  }

  /** An ordinary component put behind those of the spot. */
  method AddComponent(buf: array<char>, p: nat, s: string, b: nat, e: nat, spare: nat, ghost w: Spot)
    returns (r: array<char>, q: nat)
    requires Stands(buf, p, w)
    requires b < e <= |s| && (e < |s| ==> s[e] == '/') && NoDots(s, b) && forall i :: b <= i < e ==> s[i] != '/'
    modifies buf
    ensures var w1 := Spot(w.lead, w.st + [s[b..e]], false);
            && (r == buf || fresh(r)) && Shows(r, q, w1) && q + spare <= r.Length
            && Tour(w, s, b) == if e < |s| then Tour(w1, s, e + 1) else w1
  {
    hide Tour, EndOf, Render, RunStart, NoDots;
    var c := s[b..e];
    TourOrdinary(w, s, b, e);
    RenderMore(w.st, c);
    ghost var was := buf[..p];
    assert buf[..p + 1] == was + "/";
    r, q := Append(buf, p, s, b, e, spare);
    ghost var w1 := Spot(w.lead, w.st + [c], false);
    assert was + "/" + c == Slashes(w.lead) + (Render(w.st) + ("/" + c)) == Written(w1);
    assert AllProper(w1.st) by { hide Proper; }
  }

  /** A component that starts with a dot: . and .. are done, of any other the first characters are read. */
  method AtDot(buf: array<char>, p0: nat, s: string, b0: nat, ghost w0: Spot)
    returns (p: nat, i: nat, b: nat, ghost w: Spot)
    requires Stands(buf, p0, w0) && b0 < |s| && s[b0] == '.'
    modifies buf
    ensures Stands(buf, p, w) && b <= i <= |s| && b0 < i && Tour(w, s, b) == Tour(w0, s, b0)
    ensures (forall j :: b <= j < i ==> s[j] != '/') && (b < i ==> NoDots(s, b))
  {
    hide Tour, EndOf, Stands, RunStart, Up;
    p, i, b, w := p0, b0 + 1, b0, w0;
    if i == |s| {
      TourDot(w, s, b);
      TourEnd(w, s);
      b := i;
    } else if s[i] == '.' {
      if Ends(s, i + 1) {
        TourDots(w, s, b);
        p := Parent(buf, p, w);
        w := Up(w);
        i := i + 1;
        if i < |s| { TourEmpty(w, s, i); } else { TourEnd(w, s); }
        b := i;
      }
    } else if s[i] == '/' {
      TourDot(w, s, b);
      i := i + 1;
      b := i;
    }
  }

  /** The component loop: entered at spot w0, it ends where the tour does. */
  method Components(buf0: array<char>, p0: nat, s: string, b0: nat, ghost w0: Spot)
    returns (buf: array<char>, p: nat)
    requires b0 <= |s| && Stands(buf0, p0, w0)
    modifies buf0
    ensures Shows(buf, p, Tour(w0, s, b0))
  {
    hide Tour, EndOf, Written, RunStart;
    buf, p := buf0, p0;
    var i: nat, b: nat := b0, b0;
    ghost var w := w0;
    while i < |s|
      invariant (buf == buf0 || fresh(buf)) && Stands(buf, p, w)
      invariant b <= i <= |s| && Tour(w, s, b) == Tour(w0, s, b0)
      invariant (forall j :: b <= j < i ==> s[j] != '/') && (b < i ==> NoDots(s, b))
      decreases |s| - i
    {
      if s[i] == '.' {
        if b == i {
          p, i, b, w := AtDot(buf, p, s, b, w);
        } else {
          i := i + 1;
        }
      } else if s[i] == '/' {
        if i > b {
          buf, p := AddComponent(buf, p, s, b, i, 1, w);
          w := Spot(w.lead, w.st + [s[b..i]], false);
          ghost var was := buf[..p];
          buf[p] := '/';
          assert buf[..p] == was;
        } else {
          TourEmpty(w, s, b);
        }
        i := i + 1;
        b := i;
      } else {
        assert b == i ==> NoDots(s, b);
        i := i + 1;
      }
    }
    if i > b {
      buf, p := AddComponent(buf, p, s, b, i, 0, w);
    } else {
      TourEnd(w, s);
    }
  }

  /** skiproot */
  method SkipRoot(path: string) returns (n: nat)
    ensures n <= |path| && (forall j :: 0 <= j < n ==> path[j] == '/') && (n < |path| ==> path[n] != '/')
  {
    n := 0;
    while n < |path| && path[n] == '/'
      invariant n <= |path| && forall j :: 0 <= j < n ==> path[j] == '/'
    {
      n := n + 1;
    }
  }

  /** chompdirsep, from position p on: where trailing separators start, or the end. */
  method ChompDirSep(path: string, p0: nat) returns (n: nat)
    requires p0 <= |path|
    ensures p0 <= n <= |path| && (forall j :: n <= j < |path| ==> path[j] == '/') && (n > p0 ==> path[n - 1] != '/')
  {
    var p := p0;
    while p < |path|
      invariant p0 <= p <= |path| && (p > p0 ==> path[p - 1] != '/')
      decreases |path| - p
    {
      if path[p] == '/' {
        n := p;
        p := p + 1;
        while p < |path| && path[p] == '/'
          invariant n < p <= |path| && forall j :: n <= j < p ==> path[j] == '/'
        {
          p := p + 1;
        }
        if p == |path| { return; }
        p := p + 1;
      } else {
        p := p + 1;
      }
    }
    n := p;
  }

  /** How many slashes a path starts with. */
  function Leading(s: string): (n: nat)
    ensures n <= |s| && (forall j :: 0 <= j < n ==> s[j] == '/') && (n < |s| ==> s[n] != '/')
    decreases |s|
  {
    if s != [] && s[0] == '/' then 1 + Leading(s[1..]) else 0
  }

  /** What an absolute path expands to. */
  function Expanded(fname: string): string
    requires |fname| > 0 && fname[0] == '/'
  {
    Landing(Leading(fname) - 1, [], fname, Leading(fname))
  }

  lemma LeadingIs(s: string, n: nat)
    requires n <= |s| && (forall j :: 0 <= j < n ==> s[j] == '/') && (n < |s| ==> s[n] != '/')
    ensures Leading(s) == n
  {
  }

  /** What is left of the buffer: the root alone keeps its last slash. */
  function Left(w: Spot): string {
    if w.lost then "" else if w.st == [] then Slashes(w.lead + 1) else Written(w)
  }

  lemma LeftIs(w: Spot, s: string, b: nat)
    requires b <= |s| && Sound(w) && !w.lost
    ensures Left(Tour(w, s, b)) == Landing(w.lead, w.st, s, b)
  {
    hide Tour, Walk, Returns, Render, AllProper;
    TourWalk(w, s, b);
    var st := Walk(w.st, s, b);
    assert Slashes(0) + Render(st) == Render(st);
    assert Slashes(1) == "/";
  }

  /** The end of the expansion. */
  method Close(buf: array<char>, p: nat, ghost w: Spot) returns (r: string)
    requires Shows(buf, p, w)
    ensures r == Left(w)
  {
    ghost var all := buf[..];
    var root := SkipRoot(buf[..]);
    assert all[..p] == Written(w);
    if w.st != [] {
      RenderStart(w.st);
      assert all[w.lead + 1] == all[..p][w.lead + 1] == Render(w.st)[1];
    } else {
      assert Written(w) == Slashes(w.lead) by { assert Render([]) == ""; }
      assert forall j :: 0 <= j < p ==> all[j] == all[..p][j];
    }
    r := if p + 1 == root then buf[..p + 1] else buf[..p];
  }

  /** An absolute path. */
  method ExpandAbsolute(fname: string, buflen: nat) returns (r: string)
    requires |fname| > 0 && fname[0] == '/' && buflen > 0
    ensures r == Expanded(fname)
  {
    var n := SkipRoot(fname);
    LeadingIs(fname, n);
    var buf := new char[buflen](_ => ' ');
    buf := Room(buf, n + 1);
    for i := 0 to n
      invariant forall j :: 0 <= j < i ==> buf[j] == '/'
    {
      buf[i] := '/';
    }
    buf[n] := '\0';
    ghost var w := Spot(n - 1, [], false);
    assert buf[..n - 1] == Written(w) by { assert Render([]) == ""; }
    hide Tour, Landing, Left;
    var p;
    buf, p := Components(buf, n - 1, fname, n, w);
    r := Close(buf, p, Tour(w, fname, n));
    LeftIs(w, fname, n);
  }

  /** The buffer of an expanded path, with the separator in place for more to come. */
  method Reopen(base: array<char>, ghost w: Spot) returns (buf: array<char>, p: nat)
    requires Sound(w) && !w.lost && base[..] == Left(w)
    modifies base
    ensures (buf == base || fresh(buf)) && Stands(buf, p, w)
  {
    ghost var was := base[..];
    buf := base;
    var root := SkipRoot(base[..]);
    p := ChompDirSep(base[..], root);
    LeftShape(w, root, p);
    if p > 0 && buf[p - 1] == '/' {
      p := p - 1;
    } else {
      buf := Room(buf, p + 1);
      buf[p] := '/';
    }
    assert buf[..p] == was[..p];
    ghost var front := buf[..];
    assert front[..p] == was[..p];
    buf := Room(buf, p + 1);
    assert buf[..p] == front[..p] by { assert buf[..|front|] == front; }
    buf[p + 1] := '\0';
  }

  /** Where the trailing separators of an expanded path start: none, unless it is the root. */
  lemma LeftShape(w: Spot, root: nat, n: nat)
    requires Sound(w) && !w.lost && root <= n <= |Left(w)|
    requires (forall j :: 0 <= j < root ==> Left(w)[j] == '/') && (root < |Left(w)| ==> Left(w)[root] != '/')
    requires (forall j :: n <= j < |Left(w)| ==> Left(w)[j] == '/') && (n > root ==> Left(w)[n - 1] != '/')
    ensures w.st == [] ==> n == w.lead + 1 == |Left(w)| && Left(w)[..n - 1] == Written(w)
    ensures w.st != [] ==> n == |Left(w)| > 0 && Left(w)[n - 1] != '/' && Left(w) == Written(w)
  {
    if w.st == [] {
      assert Written(w) == Slashes(w.lead) by { assert Render([]) == ""; }
    } else {
      RenderParts(w.st);
      var c, all := w.st[|w.st| - 1], Written(w);
      assert all == Slashes(w.lead) + Render(w.st[..|w.st| - 1]) + ("/" + c);
      assert all[|all| - 1] == c[|c| - 1];
    }
  }

  /** A relative path is walked from the expansion of its directory, which must not be empty: the buffer
      could not grow from that. */
  method ExpandRelative(fname: string, dir: string, buflen: nat) returns (r: string)
    requires |fname| > 0 ==> fname[0] != '/'
    requires |dir| > 0 && dir[0] == '/' && Expanded(dir) != "" && buflen > 0
    ensures var n := Leading(dir);
            r == Landing(if Returns([], dir, n) == 0 then n - 1 else 0, Walk([], dir, n), fname, 0)
  {
    hide Tour, Landing, Left, Walk, Returns, Leading;
    var base := ExpandAbsolute(dir, buflen);
    ghost var n := Leading(dir);
    ghost var w0 := Spot(n - 1, [], false);
    ghost var w := Tour(w0, dir, n);
    LeftIs(w0, dir, n);
    TourWalk(w0, dir, n);
    LostEmpty(w);
    var buf := new char[|base|](i requires 0 <= i < |base| => base[i]);
    assert buf[..] == base;
    var p;
    buf, p := Reopen(buf, w);
    buf, p := Components(buf, p, fname, 0, w);
    r := Close(buf, p, Tour(w, fname, 0));
    LeftIs(w, fname, 0);
  }

  lemma LostEmpty(w: Spot)
    ensures w.lost ==> Left(w) == ""
  {
  }

  /** A length doubled k times. */
  function Doubled(n: nat, k: nat): nat {
    if k == 0 then n else 2 * Doubled(n, k - 1)
  }

  /** BUFCHECK ends exactly when there is a length to double: with the empty result of a directory such as
      //a/.. it goes on for ever. */
  lemma RoomExactly(n: nat, need: nat)
    ensures (exists k: nat :: Doubled(n, k) > need) <==> n > 0
  {
    if n > 0 {
      DoubledGrows(n, need + 1);
    } else {
      forall k: nat ensures Doubled(0, k) == 0 { DoubledNothing(k); }
    }
  }

  lemma {:induction false} DoubledGrows(n: nat, k: nat)
    requires n > 0
    ensures Doubled(n, k) >= n + k
    decreases k
  {
    if k > 0 { DoubledGrows(n, k - 1); }
  }

  lemma {:induction false} DoubledNothing(k: nat)
    ensures Doubled(0, k) == 0
    decreases k
  {
    if k > 0 { DoubledNothing(k - 1); }
  }

  /** A normal path starts with one slash and does not end with one, unless it is the root. */
  lemma ShownShape(st: seq<string>)
    requires AllProper(st)
    ensures var r := Shown(st); |r| > 0 && r[0] == '/' && (|r| > 1 ==> r[1] != '/' && r[|r| - 1] != '/')
    ensures st != [] ==> |Shown(st)| > 1
    decreases |st|
  {
    if st != [] {
      RenderParts(st);
      if |st| > 1 { ShownShape(st[..|st| - 1]); }
    }
  }

  // ----- expanding twice -----

  lemma {:induction false} EndShift(s: string, t: string, b: nat)
    requires b <= |t|
    ensures EndOf(s + t, |s| + b) == |s| + EndOf(t, b)
    decreases |t| - b
  {
    if b < |t| && t[b] != '/' { EndShift(s, t, b + 1); }
  }

  lemma NoSlash(c: string)
    requires Proper(c)
    ensures forall i :: 0 <= i < |c| ==> c[i] != '/'
  {
  }

  lemma EnterProper(st: seq<string>, c: string)
    requires Proper(c)
    ensures Enter(st, c) == st + [c]
  {
  }

  /** Walking a path that goes on behind a slash. */
  lemma {:induction false} WalkMore(st: seq<string>, s: string, b: nat, c: string)
    requires b <= |s| && Proper(c)
    ensures Walk(st, s + ("/" + c), b) == Walk(st, s, b) + [c]
    ensures Returns(st, s + ("/" + c), b) == Returns(st, s, b)
    decreases |s| - b
  {
    hide Walk, EndOf, Enter, Proper, Returns;
    var t := s + ("/" + c);
    var e := EndOf(s, b);
    EndIs(t, b, e);
    WalkShape(st, s, b);
    WalkShape(st, t, b);
    assert t[b..e] == s[b..e];
    if e < |s| {
      WalkMore(Enter(st, s[b..e]), s, e + 1, c);
    } else {
      WalkLast(Enter(st, s[b..e]), s, c);
    }
  }

  /** The last component behind a slash. */
  lemma WalkLast(st: seq<string>, s: string, c: string)
    requires Proper(c)
    ensures var t := s + ("/" + c);
            Walk(st, t, |s| + 1) == st + [c] && Returns(st, t, |s| + 1) == 0
  {
    hide Walk, EndOf, Enter, Proper, Returns;
    var t, b := s + ("/" + c), |s| + 1;
    NoSlash(c);
    assert forall i :: b <= i < |t| ==> t[i] == c[i - b];
    EndIs(t, b, |t|);
    assert t[b..|t|] == c;
    WalkShape(st, t, b);
    EnterProper(st, c);
  }

  lemma RenderNone()
    ensures Render([]) == ""
  {
  }

  lemma ProperAt(st: seq<string>, n: nat)
    requires AllProper(st) && n < |st|
    ensures Proper(st[n])
  {
  }

  /** The walk of a normal path finds its components again. */
  lemma {:induction false} WalkRender(st: seq<string>)
    requires st != [] && AllProper(st)
    ensures Walk([], Render(st), 1) == st && Returns([], Render(st), 1) == 0
    decreases |st|
  {
    hide Walk, EndOf, Enter, Proper, Render, AllProper, Returns;
    RenderParts(st);
    var n := |st| - 1;
    assert st == st[..n] + [st[n]];
    ProperAt(st, n);
    if n == 0 {
      var r := Render(st);
      RenderNone();
      NoSlash(st[0]);
      assert forall i :: 1 <= i < |r| ==> r[i] == st[0][i - 1];
      EndIs(r, 1, |r|);
      WalkShape([], r, 1);
      assert r[1..|r|] == st[0];
      EnterProper([], st[0]);
    } else {
      WalkRender(st[..n]);
      RenderNotOne(st[..n]);
      WalkMore([], Render(st[..n]), 1, st[n]);
    }
  }

  /** What is in front of a path does not matter to its walk. */
  lemma {:induction false} Shifted(st: seq<string>, s: string, t: string, b: nat)
    requires b <= |t|
    ensures Walk(st, s + t, |s| + b) == Walk(st, t, b) && Returns(st, s + t, |s| + b) == Returns(st, t, b)
    decreases |t| - b
  {
    hide Walk, EndOf, Enter, Returns;
    var e := EndOf(t, b);
    EndShift(s, t, b);
    WalkShape(st, t, b);
    WalkShape(st, s + t, |s| + b);
    assert (s + t)[|s| + b..|s| + e] == t[b..e];
    if e < |t| { Shifted(Enter(st, t[b..e]), s, t, e + 1); }
  }

  lemma WalkNothing(s: string)
    ensures Walk([], s, |s|) == [] && Returns([], s, |s|) == 0
  {
    assert s[|s|..|s|] == "";
  }

  /** Expanding twice: the result is empty exactly when more than one slash leads and the path comes back
      to the root once and ends there; otherwise it is absolute and expanding it changes nothing. */
  lemma ExpandTwice(fname: string)
    requires |fname| > 0 && fname[0] == '/'
    ensures var r, n := Expanded(fname), Leading(fname);
            && (r == "" <==> n > 1 && Walk([], fname, n) == [] && Returns([], fname, n) == 1)
            && (r != "" ==> r[0] == '/' && Expanded(r) == r)
  {
    hide Walk, Returns, Render, Shown, Slashes, Expanded, Landing, Leading;
    var n := Leading(fname);
    var st, k := Walk([], fname, n), Returns([], fname, n);
    WalkProper([], fname, n);
    ExpandedCases(fname);
    if n == 1 || k >= 2 || (k == 1 && st != []) {
      TwiceShown(st);
    } else if k == 0 {
      TwiceSlashes(n, st);
    }
  }

  lemma ExpandedCases(fname: string)
    requires |fname| > 0 && fname[0] == '/'
    ensures var r, n := Expanded(fname), Leading(fname);
            var st, k := Walk([], fname, n), Returns([], fname, n);
            && n >= 1
            && (n == 1 || k >= 2 || (k == 1 && st != []) ==> r == Shown(st))
            && (n > 1 && k == 1 && st == [] ==> r == "")
            && (n > 1 && k == 0 ==> r == if st == [] then Slashes(n) else Slashes(n - 1) + Render(st))
  {
    hide Walk, Returns, Render, Shown, Slashes;
  }

  lemma TwiceShown(st: seq<string>)
    requires AllProper(st)
    ensures Shown(st) != "" && Shown(st)[0] == '/' && Expanded(Shown(st)) == Shown(st)
  {
    hide Walk, Returns, Render, AllProper;
    ShownShape(st);
    var r := Shown(st);
    LeadingIs(r, 1);
    ExpandedCases(r);
    if st == [] { WalkNothing(r); } else { WalkRender(st); }
  }

  lemma TwiceSlashes(n: nat, st: seq<string>)
    requires n > 1 && AllProper(st)
    ensures var r := if st == [] then Slashes(n) else Slashes(n - 1) + Render(st);
            r != "" && r[0] == '/' && Expanded(r) == r
  {
    hide Walk, Returns, Render, AllProper;
    var r := if st == [] then Slashes(n) else Slashes(n - 1) + Render(st);
    if st == [] {
      LeadingIs(r, n);
      WalkNothing(r);
    } else {
      RenderStart(st);
      LeadingIs(r, n);
      Shifted([], Slashes(n - 1), Render(st), 1);
      WalkRender(st);
    }
  }

  // ----- normal forms -----

  /** A normal path: behind the leading slashes every slash has a component after it that is neither empty
      nor a dot nor two. */
  ghost predicate Normal(r: string) {
    && r != "" && r[0] == '/'
    && (Leading(r) < |r| ==> AllNormal(r, Leading(r)))
  }

  ghost predicate AllNormal(r: string, m: nat)
    requires m > 0
  {
    forall b :: m <= b <= |r| && r[b - 1] == '/' ==> Proper(r[b..EndOf(r, b)])
  }

  lemma {:induction false} RenderNormal(k: nat, st: seq<string>)
    requires st != [] && AllProper(st)
    ensures AllNormal(Slashes(k) + Render(st), k + 1)
    decreases |st|
  {
    hide Render, Slashes, Proper, AllProper, EndOf;
    RenderParts(st);
    var n := |st| - 1;
    var t, s := Slashes(k) + Render(st[..n]), Slashes(k) + Render(st);
    ProperAt(st, n);
    NoSlash(st[n]);
    RenderNone();
    assert s == t + ("/" + st[n]);
    if n > 0 { RenderNormal(k, st[..n]); }
    forall b | k + 1 <= b <= |s| && s[b - 1] == '/'
      ensures Proper(s[b..EndOf(s, b)])
    {
      if b <= |t| {
        assert t[b - 1] == '/';
        EndIs(s, b, EndOf(t, b));
        assert s[b..EndOf(t, b)] == t[b..EndOf(t, b)];
      } else {
        assert b == |t| + 1;
        assert forall i :: b <= i < |s| ==> s[i] == st[n][i - |t| - 1];
        EndIs(s, b, |s|);
        assert s[b..|s|] == st[n];
      }
    }
  }

  /** The components of a normal path. */
  lemma {:induction false} Parsed(s: string, m: nat, b: nat, st: seq<string>) returns (all: seq<string>)
    requires 1 <= m <= b <= |s| && s[b - 1] == '/' && AllProper(st) && s[..b - 1] == Slashes(m - 1) + Render(st)
    requires AllNormal(s, m)
    ensures all != [] && AllProper(all) && s == Slashes(m - 1) + Render(all)
    decreases |s| - b
  {
    hide Render, Slashes, Proper, EndOf, AllNormal;
    var e := EndOf(s, b);
    assert Proper(s[b..e]) by { NormalAt(s, m, b); }
    all := st + [s[b..e]];
    RenderMore(st, s[b..e]);
    assert s[..e] == s[..b - 1] + ("/" + s[b..e]);
    if e < |s| {
      all := Parsed(s, m, e + 1, all);
    } else {
      assert s[..e] == s;
    }
  }

  lemma NormalAt(s: string, m: nat, b: nat)
    requires 0 < m <= b <= |s| && s[b - 1] == '/' && AllNormal(s, m)
    ensures Proper(s[b..EndOf(s, b)])
  {
  }

  /** What a path expands to is normal, with all its leading slashes if it never comes back to the root. */
  lemma NormalForm(fname: string)
    requires |fname| > 0 && fname[0] == '/' && Expanded(fname) != ""
    ensures var r, n := Expanded(fname), Leading(fname);
            Normal(r) && Leading(r) == if Returns([], fname, n) == 0 then n else 1
  {
    hide Walk, Returns, Render, Slashes, Expanded, Landing, Leading, AllNormal;
    var n := Leading(fname);
    var st, k := Walk([], fname, n), Returns([], fname, n);
    WalkProper([], fname, n);
    ExpandedCases(fname);
    var m, r := if k == 0 then n else 1, Expanded(fname);
    if st == [] {
      LeadingIs(r, m);
    } else {
      assert Slashes(0) + Render(st) == Render(st);
      assert r == Slashes(m - 1) + Render(st);
      RenderStart(st);
      RenderNormal(m - 1, st);
      LeadingIs(r, m);
    }
  }

  /** A path expands to itself exactly when it is normal. */
  lemma NormalExactly(fname: string)
    requires |fname| > 0 && fname[0] == '/'
    ensures Expanded(fname) == fname <==> Normal(fname)
  {
    hide Walk, Returns, Render, Slashes, Expanded, Landing, Leading, AllNormal, Proper;
    if Expanded(fname) == fname {
      NormalForm(fname);
    } else if Normal(fname) {
      var m := Leading(fname);
      var st := [];
      if m < |fname| {
        RenderNone();
        assert fname[..m - 1] == Slashes(m - 1);
        st := Parsed(fname, m, m, []);
        assert Slashes(0) + Render(st) == Render(st);
      } else {
        assert fname == Slashes(m) && Slashes(1) == "/";
      }
      if m == 1 { TwiceShown(st); } else { TwiceSlashes(m, st); }
    }
  }

  /** What a directory expands to can be grown into a longer path exactly when it is not empty, that is
      unless it has more slashes in front than one, comes back to the root once, and ends there. */
  lemma DirectoryGrows(dir: string, need: nat)
    requires |dir| > 0 && dir[0] == '/'
    ensures var n := Leading(dir);
            (exists k: nat :: Doubled(|Expanded(dir)|, k) > need)
            <==> !(n > 1 && Walk([], dir, n) == [] && Returns([], dir, n) == 1)
  {
    hide Walk, Returns, Expanded, Leading, Doubled;
    ExpandTwice(dir);
    RoomExactly(|Expanded(dir)|, need);
  }

  /** The path //a/.. expands to nothing. */
  lemma NothingLeft()
    ensures Expanded("//a/..") == ""
  {
    hide Walk, Returns, Enter;
    var s := "//a/..";
    LeadingIs(s, 2);
    EndIs(s, 2, 3);
    EndIs(s, 4, 6);
    assert s[2..3] == "a" && s[4..6] == "..";
    assert Enter([], "a") == ["a"] && Enter(["a"], "..") == [] by { EnterExamples(); }
    WalkShape([], s, 2);
    WalkShape(["a"], s, 4);
  }

  lemma EnterExamples()
    ensures Enter([], "a") == ["a"] && Enter(["a"], "..") == []
  {
  }
}
