/** Whole patterns and whole paths as they are written: components between slashes. */
module WrittenPaths {
  import opened Options
  import opened Fnmatch
  import opened WrittenSets
  import opened WrittenPatterns

  /** A component of the pattern with the double stars in front of it, and a backslash that may stand at its end. */
  datatype Piece = Piece(deep: nat, glyphs: seq<Glyph>, tail: string)

  function Stars(n: nat): (t: string)
    ensures |t| == 3 * n
  {
    if n == 0 then "" else "**/" + Stars(n - 1)
  }

  function PieceText(w: Piece): string { Stars(w.deep) + (Spelled(w.glyphs) + w.tail) }

  function PatternText(ws: seq<Piece>): string
    requires ws != []
  {
    if |ws| == 1 then PieceText(ws[0]) else PieceText(ws[0]) + ("/" + PatternText(ws[1..]))
  }

  /** Two stars in front of a slash are a double star, not a component. */
  predicate FitPieces(ws: seq<Piece>, f: Flags) {
    forall k :: 0 <= k < |ws| ==>
      && FitAll(ws[k].glyphs, f) && (ws[k].tail == "" || (f.escape && ws[k].tail == "\\"))
      && (k + 1 < |ws| ==> !(ws[k].glyphs == [Many, Many] && ws[k].tail == ""))
  }

  /** The components of a path, slashes between them. */
  function Joined(cs: seq<string>): string
    requires cs != []
  {
    if |cs| == 1 then cs[0] else cs[0] + ("/" + Joined(cs[1..]))
  }

  predicate NoSlash(cs: seq<string>) {
    forall k :: 0 <= k < |cs| ==> '/' !in cs[k]
  }

  predicate Hides(c: string, f: Flags) {
    f.period && c != "" && c[0] == '.'
  }

  /** Each component of the pattern takes one of the path, in order and with none left over; in front of it skips
      says how many its double stars pass, none of them hidden. */
  predicate Placed(ws: seq<Piece>, cs: seq<string>, skips: seq<nat>, f: Flags)
    decreases |ws|
  {
    && ws != [] && |skips| == |ws| && skips[0] < |cs| && (skips[0] > 0 ==> ws[0].deep > 0)
    && (forall x :: 0 <= x < skips[0] ==> !Hides(cs[x], f))
    && Fits(ws[0].glyphs, cs[skips[0]], f)
    && var rest := cs[skips[0] + 1..];
       if |ws| == 1 then rest == [] else rest != [] && Placed(ws[1..], rest, skips[1..], f)
  }

  // ----- the components of the text -----

  function Comps(path: Path): (cs: seq<string>)
    ensures |cs| == |path.St()| && forall i :: 0 <= i < |cs| ==> cs[i] == Text(path.str, path.St()[i], path.f)
  {
    seq(|path.St()|, i requires 0 <= i < |path.St()| => Text(path.str, path.St()[i], path.f))
  }

  lemma TextUpTo(str: CString, s: nat, f: Flags, t: string)
    requires f.pathname && Stands(str, s, t) && '/' !in t && IsEnd(str, s + |t|, f)
    ensures Text(str, s, f) == t && TextEnd(str, s, f) == s + |t|
  {
    forall k | s <= k < s + |t| ensures !IsEnd(str, k, f) { assert str[k] == t[k - s]; }
  }

  lemma StartsUnfold(str: CString, s: nat, f: Flags)
    requires s <= |str|
    ensures var e := TextEnd(str, s, f);
            Starts(str, s, f) == if e < |str| then [s] + Starts(str, e + 1, f) else [s]
  {
  }

  /** The text from s on is split at its slashes. */
  lemma {:induction false} SplitsAs(str: CString, s: nat, f: Flags, cs: seq<string>)
    requires f.pathname && cs != [] && NoSlash(cs) && Stands(str, s, Joined(cs)) && s + |Joined(cs)| == |str|
    ensures var st := Starts(str, s, f);
            |st| == |cs| && forall i :: 0 <= i < |cs| ==> Text(str, st[i], f) == cs[i]
    decreases |cs|
  {
    hide Stands, Starts, TextEnd, Text;
    StandsInside(str, s, Joined(cs));
    if |cs| == 1 {
      TextUpTo(str, s, f, cs[0]);
      StartsUnfold(str, s, f);
    } else {
      var rest := "/" + Joined(cs[1..]);
      StandsSplit(str, s, cs[0], rest);
      StandsSplit(str, s + |cs[0]|, "/", Joined(cs[1..]));
      StandsOne(str, s + |cs[0]|, '/');
      TextUpTo(str, s, f, cs[0]);
      StartsUnfold(str, s, f);
      SplitsAs(str, s + |cs[0]| + 1, f, cs[1..]);
      var st := Starts(str, s, f);
      forall i | 0 < i < |cs| ensures Text(str, st[i], f) == cs[i] { assert cs[i] == cs[1..][i - 1]; }
    }
  }

  lemma StandsInside(pat: CString, p: nat, t: string)
    requires Stands(pat, p, t)
    ensures p + |t| <= |pat|
  {
  }

  /** Every text is joined of its components. */
  lemma {:induction false} JoinsAs(str: CString, s: nat, f: Flags) returns (cs: seq<string>)
    requires f.pathname && s <= |str|
    ensures var st := Starts(str, s, f);
            |st| == |cs| && forall i :: 0 <= i < |cs| ==> Text(str, st[i], f) == cs[i]
    ensures NoSlash(cs) && Stands(str, s, Joined(cs)) && s + |Joined(cs)| == |str|
    decreases |str| - s
  {
    hide Stands, Starts, TextEnd, Text;
    var e := TextEnd(str, s, f);
    var c := Text(str, s, f);
    TextPlain(str, s, f);
    StartsUnfold(str, s, f);
    if e < |str| {
      var rest := JoinsAs(str, e + 1, f);
      cs := [c] + rest;
      assert cs[1..] == rest;
      StandsOne(str, e, '/');
      StandsSplit(str, e, "/", Joined(rest));
      StandsSplit(str, s, c, "/" + Joined(rest));
      var st := Starts(str, s, f);
      forall i | 0 < i < |cs| ensures Text(str, st[i], f) == cs[i] { assert st[i] == Starts(str, e + 1, f)[i - 1]; }
    } else {
      cs := [c];
    }
  }

  lemma TextPlain(str: CString, s: nat, f: Flags)
    requires f.pathname && s <= |str|
    ensures var e, c := TextEnd(str, s, f), Text(str, s, f);
            Stands(str, s, c) && e == s + |c| && '/' !in c && (e < |str| ==> At(str, e) == '/')
  {
    var c := Text(str, s, f);
    forall k | 0 <= k < |c| ensures c[k] != '/' { assert c[k] == str[s + k] && !IsEnd(str, s + k, f); }
  }

  // ----- the components of the pattern -----

  lemma {:induction false} StarsRead(pat: CString, p: nat, n: nat)
    requires Stands(pat, p, Stars(n)) && !IsDeep(pat, p + 3 * n)
    ensures SkipDeep(pat, p) == p + 3 * n && (IsDeep(pat, p) <==> n > 0)
    decreases n
  {
    if n > 0 {
      StandsSplit(pat, p, "**/", Stars(n - 1));
      assert pat[p..p + 3] == "**/";
      assert pat[p] == "**/"[0] && pat[p + 1] == "**/"[1] && pat[p + 2] == "**/"[2];
      StarsRead(pat, p + 3, n - 1);
    }
  }

  /** The first character of a glyph is a star only if the glyph is one, and never a slash. */
  lemma GlyphStarts(pat: CString, p: nat, f: Flags, g: Glyph)
    requires f.pathname && FitGlyph(g, f) && Stands(pat, p, GlyphText(g))
    ensures At(pat, p) != '/' && (At(pat, p) == '*' <==> g == Many) && (g == Many ==> |GlyphText(g)| == 1)
  {
    hide SetText, FitSet;
    match g
    case Any => StandsOne(pat, p, '?');
    case Many => StandsOne(pat, p, '*');
    case Just(x) => StandsSplit(pat, p, [GlyphText(g)[0]], GlyphText(g)[1..]);
    case Set(negation, items) => SetGlyph(pat, p, f, negation, items, 'x');
  }

  /** What stands at the beginning of a component. */
  lemma ComponentStarts(pat: CString, p: nat, e: nat, f: Flags, gs: seq<Glyph>, tail: string)
    requires f.pathname && Component(pat, p, e, f, gs, tail)
    ensures At(pat, p) == '*' ==> gs != [] && gs[0] == Many && Component(pat, p + 1, e, f, gs[1..], tail)
    ensures At(pat, p) == '/' ==> gs == [] && tail == "" && e == p
  {
    hide FitGlyph, GlyphText, Stands;
    if gs == [] {
      EndReads(pat, p, e, f, tail);
      TailStarts(pat, p, e, f, tail);
    } else {
      ComponentSplit(pat, p, e, f, gs, tail);
      GlyphStarts(pat, p, f, gs[0]);
    }
  }

  lemma TailStarts(pat: CString, p: nat, e: nat, f: Flags, tail: string)
    requires Component(pat, p, e, f, [], tail)
    ensures tail != "" ==> At(pat, p) == '\\'
    ensures tail == "" ==> e == p
  {
    assert Spelled([]) == "" && "" + tail == tail;
    if tail != "" { StandsOne(pat, p, '\\'); }
  }

  /** A component is no double star unless it is two stars in front of a slash. */
  lemma NotDeepHere(pat: CString, p: nat, e: nat, f: Flags, gs: seq<Glyph>, tail: string)
    requires f.pathname && Component(pat, p, e, f, gs, tail)
    ensures IsDeep(pat, p) <==> gs == [Many, Many] && tail == "" && e < |pat|
  {
    hide Component;
    ComponentStarts(pat, p, e, f, gs, tail);
    if IsDeep(pat, p) {
      ComponentStarts(pat, p + 1, e, f, gs[1..], tail);
      ComponentStarts(pat, p + 2, e, f, gs[1..][1..], tail);
    }
    if gs == [Many, Many] && tail == "" { TwoStars(pat, p, e, f); }
  }

  lemma TwoStars(pat: CString, p: nat, e: nat, f: Flags)
    requires f.pathname && Component(pat, p, e, f, [Many, Many], "")
    ensures e == p + 2 && (e < |pat| <==> IsDeep(pat, p))
  {
    var gs := [Many, Many];
    assert gs[1..] == [Many] && gs[1..][1..] == [];
    assert Spelled([Many]) == "*" + "" && Spelled(gs) == "*" + Spelled([Many]);
    assert Spelled(gs) + "" == "**";
    assert pat[p..p + 2] == "**";
    assert pat[p] == "**"[0] && pat[p + 1] == "**"[1];
  }

  /** The component of the pattern at hand and where it ends. */
  lemma PieceReads(pat: CString, p: nat, f: Flags, ws: seq<Piece>) returns (e: nat)
    requires f.pathname && ws != [] && FitPieces(ws, f)
    requires Stands(pat, p, PatternText(ws)) && p + |PatternText(ws)| == |pat|
    ensures var at := p + 3 * ws[0].deep;
            && SkipDeep(pat, p) == at <= |pat| && (IsDeep(pat, p) <==> ws[0].deep > 0)
            && Component(pat, at, e, f, ws[0].glyphs, ws[0].tail) && PatternEnd(pat, at, f) == e
    ensures e < |pat| <==> |ws| > 1
    ensures |ws| > 1 ==> Stands(pat, e + 1, PatternText(ws[1..])) && e + 1 + |PatternText(ws[1..])| == |pat|
  {
    hide Stands, Spelled, Stars, PatternEnd, FitGlyph, Match, Covers;
    var w := ws[0];
    var body := Spelled(w.glyphs) + w.tail;
    var at := p + 3 * w.deep;
    e := at + |body|;
    if |ws| > 1 {
      var rest := PatternText(ws[1..]);
      StandsSplit(pat, p, PieceText(w), "/" + rest);
      StandsSplit(pat, e, "/", rest);
      StandsOne(pat, e, '/');
    }
    StandsSplit(pat, p, Stars(w.deep), body);
    NotDeepHere(pat, at, e, f, w.glyphs, w.tail);
    StarsRead(pat, p, w.deep);
    ComponentFits(pat, at, e, f, w.glyphs, w.tail, "", 0);
  }

  /** What a part of the pattern is written as. */
  ghost predicate PartIs(path: Path, part: Part, w: Piece) {
    && part.at <= |path.pat| && (part.deep <==> w.deep > 0)
    && exists e :: Component(path.pat, part.at, e, path.f, w.glyphs, w.tail)
  }

  lemma {:induction false} PartsRead(path: Path, p: nat, ws: seq<Piece>)
    requires path.f.pathname && ws != [] && FitPieces(ws, path.f)
    requires Stands(path.pat, p, PatternText(ws)) && p + |PatternText(ws)| == |path.pat|
    ensures |path.Parts(p)| == |ws| && forall k :: 0 <= k < |ws| ==> PartIs(path, path.Parts(p)[k], ws[k])
    decreases |ws|
  {
    hide Stands, PatternEnd, Component, PatternText, SkipDeep, IsDeep;
    var e := PieceReads(path.pat, p, path.f, ws);
    path.PartsUnfold(p);
    assert PartIs(path, path.Parts(p)[0], ws[0]);
    if |ws| > 1 {
      PartsRead(path, e + 1, ws[1..]);
      forall k | 0 < k < |ws| ensures PartIs(path, path.Parts(p)[k], ws[k]) {
        assert path.Parts(p)[k] == path.Parts(e + 1)[k - 1] && ws[k] == ws[1..][k - 1];
      }
    }
  }

  /** How many double stars stand in front. */
  lemma {:induction false} StarsSpelled(pat: CString, p: nat) returns (n: nat)
    requires p <= |pat|
    ensures Stands(pat, p, Stars(n)) && SkipDeep(pat, p) == p + 3 * n
    decreases |pat| - p
  {
    if IsDeep(pat, p) {
      n := StarsSpelled(pat, p + 3);
      n := n + 1;
      assert pat[p..p + 3] == "**/";
      StandsSplit(pat, p, "**/", Stars(n - 1));
    } else {
      n := 0;
    }
  }

  /** A pattern whose brackets are all closed is written as pieces. */
  lemma {:induction false} PatternSpelled(path: Path, p: nat) returns (ws: seq<Piece>)
    requires path.f.pathname && p <= |path.pat| && Closed(path, path.Parts(p))
    ensures ws != [] && FitPieces(ws, path.f)
    ensures Stands(path.pat, p, PatternText(ws)) && p + |PatternText(ws)| == |path.pat|
    decreases |path.pat| - p
  {
    hide Stands, PatternEnd, Component, SkipDeep, IsDeep, Tokens, Stars, Spelled, FitGlyph, Match, Covers, Fits;
    hide Path.Parts;
    var pat, f := path.pat, path.f;
    path.PartsUnfold(p);
    var n := StarsSpelled(pat, p);
    var at := SkipDeep(pat, p);
    assert path.Parts(p)[0].at == at;
    var e, gs, tail := ComponentSpelled(pat, at, f);
    ComponentFits(pat, at, e, f, gs, tail, "", 0);
    NotDeepHere(pat, at, e, f, gs, tail);
    var w := Piece(n, gs, tail);
    ComponentText(pat, at, e, f, gs, tail);
    StandsSplit(pat, p, Stars(n), Spelled(gs) + tail);
    if e < |pat| {
      assert path.Parts(p)[1..] == path.Parts(e + 1);
      var rest := PatternSpelled(path, e + 1);
      ws := [w] + rest;
      PiecesJoin(pat, p, e, f, w, rest);
    } else {
      ws := [w];
    }
  }

  lemma PiecesJoin(pat: CString, p: nat, e: nat, f: Flags, w: Piece, rest: seq<Piece>)
    requires rest != [] && FitPieces(rest, f) && Stands(pat, e + 1, PatternText(rest)) && At(pat, e) == '/'
    requires Stands(pat, p, PieceText(w)) && e == p + |PieceText(w)|
    requires FitAll(w.glyphs, f) && (w.tail == "" || (f.escape && w.tail == "\\"))
    requires !(w.glyphs == [Many, Many] && w.tail == "")
    ensures var ws := [w] + rest;
            && FitPieces(ws, f) && Stands(pat, p, PatternText(ws))
            && |PatternText(ws)| == |PieceText(w)| + 1 + |PatternText(rest)|
  {
    hide Stands, PieceText, FitGlyph;
    var ws := [w] + rest;
    assert ws[1..] == rest;
    forall k | 0 < k < |ws| ensures ws[k] == rest[k - 1] {}
    StandsOne(pat, e, '/');
    StandsSplit(pat, e, "/", PatternText(rest));
    StandsSplit(pat, p, PieceText(w), "/" + PatternText(rest));
  }

  /** The brackets of these parts are closed. */
  predicate Closed(path: Path, parts: seq<Part>) {
    forall part :: part in parts ==> part.at <= |path.pat| && Tokens(path.pat, part.at, path.f).Some?
  }

  lemma ComponentText(pat: CString, p: nat, e: nat, f: Flags, gs: seq<Glyph>, tail: string)
    requires f.pathname && Component(pat, p, e, f, gs, tail)
    ensures Stands(pat, p, Spelled(gs) + tail) && e == p + |Spelled(gs) + tail|
    ensures FitAll(gs, f) && (tail == "" || (f.escape && tail == "\\"))
    ensures e <= |pat| && (e < |pat| ==> At(pat, e) == '/')
  {
  }

  // ----- the law -----

  lemma {:induction false} LaidPlaced(path: Path, parts: seq<Part>, ws: seq<Piece>, i: nat, skips: seq<nat>)
    requires path.f.pathname && |parts| == |ws| && i < |path.St()|
    requires forall k :: 0 <= k < |ws| ==> PartIs(path, parts[k], ws[k])
    ensures path.Laid(parts, i, skips) <==> Placed(ws, Comps(path)[i..], skips, path.f)
    decreases |ws|
  {
    hide Placed, PartIs, Path.Laid, Fits, Path.St, Path.Hidden, Path.Component;
    if ws != [] && |skips| == |ws| && i + skips[0] < |path.St()| {
      var next := i + skips[0] + 1;
      FitsHere(path, parts[0], ws[0], i + skips[0]);
      HiddenSame(path, i, skips[0]);
      assert Comps(path)[i..][skips[0] + 1..] == Comps(path)[next..];
      LaidFirst(path, parts, ws, i, skips);
      if |ws| > 1 && next < |path.St()| { LaidPlaced(path, parts[1..], ws[1..], next, skips[1..]); }
    } else {
      LaidNot(path, parts, ws, i, skips);
    }
  }

  lemma LaidNot(path: Path, parts: seq<Part>, ws: seq<Piece>, i: nat, skips: seq<nat>)
    requires |parts| == |ws| && i < |path.St()|
    requires ws == [] || |skips| != |ws| || i + skips[0] >= |path.St()|
    ensures !path.Laid(parts, i, skips) && !Placed(ws, Comps(path)[i..], skips, path.f)
  {
    hide Fits, Path.St, Path.Hidden, Path.Component;
  }

  /** What both mean of the first component. */
  lemma LaidFirst(path: Path, parts: seq<Part>, ws: seq<Piece>, i: nat, skips: seq<nat>)
    requires |parts| == |ws| == |skips| && ws != [] && i + skips[0] < |path.St()| && PartIs(path, parts[0], ws[0])
    ensures var next, cs := i + skips[0] + 1, Comps(path);
            && (path.Laid(parts, i, skips) <==>
                  && (skips[0] > 0 ==> ws[0].deep > 0) && (forall x :: i <= x < i + skips[0] ==> !path.Hidden(x))
                  && path.Component(parts[0].at, i + skips[0])
                  && if |ws| == 1 then next == |path.St()|
                     else next < |path.St()| && path.Laid(parts[1..], next, skips[1..]))
            && (Placed(ws, cs[i..], skips, path.f) <==>
                  && (skips[0] > 0 ==> ws[0].deep > 0)
                  && (forall x :: 0 <= x < skips[0] ==> !Hides(cs[i..][x], path.f))
                  && Fits(ws[0].glyphs, cs[i + skips[0]], path.f)
                  && if |ws| == 1 then next == |path.St()|
                     else next < |path.St()| && Placed(ws[1..], cs[next..], skips[1..], path.f))
  {
    hide Component, Fits, Path.St, Path.Hidden, Path.Component;
    var cs := Comps(path);
    assert cs[i..][skips[0] + 1..] == cs[i + skips[0] + 1..];
  }

  lemma HiddenIs(path: Path, x: nat)
    requires x < |path.St()|
    ensures path.Hidden(x) <==> Hides(Comps(path)[x], path.f)
  {
    PeriodFirst(path.str, path.St()[x], path.f);
  }

  /** None of the components skipped is hidden. */
  lemma HiddenSame(path: Path, i: nat, n: nat)
    requires i + n < |path.St()|
    ensures (forall x :: i <= x < i + n ==> !path.Hidden(x)) <==>
            (forall x :: 0 <= x < n ==> !Hides(Comps(path)[i..][x], path.f))
  {
    hide Path.Hidden, Path.St;
    forall x | i <= x < i + n ensures path.Hidden(x) <==> Hides(Comps(path)[i..][x - i], path.f) { HiddenIs(path, x); }
    if forall x :: i <= x < i + n ==> !path.Hidden(x) {
      forall x | 0 <= x < n ensures !Hides(Comps(path)[i..][x], path.f) { assert !path.Hidden(i + x); }
    }
  }

  lemma FitsHere(path: Path, part: Part, w: Piece, k: nat)
    requires PartIs(path, part, w) && k < |path.St()|
    ensures path.Component(part.at, k) <==> Fits(w.glyphs, Comps(path)[k], path.f)
  {
    hide Component, Fits, ComponentMatch;
    var e :| Component(path.pat, part.at, e, path.f, w.glyphs, w.tail);
    ComponentFits(path.pat, part.at, e, path.f, w.glyphs, w.tail, path.str, path.St()[k]);
  }

  /** A whole pattern matches a whole path. */
  ghost predicate Suits(pat: CString, str: CString, f: Flags) {
    exists ws, cs, skips ::
      && ws != [] && FitPieces(ws, f) && pat == PatternText(ws)
      && cs != [] && NoSlash(cs) && str == Joined(cs)
      && Placed(ws, cs, skips, f)
  }

  /** With FNM_PATHNAME a pattern matches exactly when it and the path are written as components of which each of
      the pattern's takes one of the path's, double stars passing some that are not hidden. */
  lemma PathExactly(pat: CString, str: CString, f: Flags)
    requires f.pathname
    ensures PatternMatches(pat, str, f) <==> Suits(pat, str, f)
  {
    hide FitPieces, PatternText, NoSlash, Joined, Placed, Path.Laid, Path.Matches, Path.Parts, Component, Tokens,
         Stands;
    var path := Path(pat, str, f);
    path.MatchIsLaying(0, 0);
    if PatternMatches(pat, str, f) {
      var skips :| path.Laid(path.Parts(0), 0, skips);
      LaidClosed(path, path.Parts(0), 0, skips);
      var ws := PatternSpelled(path, 0);
      PartsRead(path, 0, ws);
      StandsWhole(pat, PatternText(ws));
      var cs := JoinsAs(str, 0, f);
      StandsWhole(str, Joined(cs));
      assert cs == Comps(path) == Comps(path)[0..];
      LaidPlaced(path, path.Parts(0), ws, 0, skips);
      assert Placed(ws, cs, skips, f);
    }
    if ws, cs, skips :|
      && ws != [] && FitPieces(ws, f) && pat == PatternText(ws)
      && cs != [] && NoSlash(cs) && str == Joined(cs) && Placed(ws, cs, skips, f)
    {
      StandsWhole(pat, PatternText(ws));
      StandsWhole(str, Joined(cs));
      PartsRead(path, 0, ws);
      SplitsAs(str, 0, f, cs);
      assert cs == Comps(path) == Comps(path)[0..];
      LaidPlaced(path, path.Parts(0), ws, 0, skips);
    }
  }

  lemma StandsWhole(pat: CString, t: string)
    ensures Stands(pat, 0, t) && |t| == |pat| <==> pat == t
  {
  }

  /** All brackets of a pattern that matches are closed. */
  lemma {:induction false} LaidClosed(path: Path, parts: seq<Part>, i: nat, skips: seq<nat>)
    requires i < |path.St()| && path.Laid(parts, i, skips)
    ensures Closed(path, parts)
    decreases |parts|
  {
    hide Tokens, Match, Path.St, Path.Hidden;
    MatchIsAssignment(path.pat, parts[0].at, path.str, path.St()[i + skips[0]], path.f);
    if |parts| > 1 {
      LaidClosed(path, parts[1..], i + skips[0] + 1, skips[1..]);
    }
    assert parts == [parts[0]] + parts[1..];
  }

  /** Without FNM_PATHNAME the pattern is one component and the text is taken whole. */
  lemma TextExactly(pat: CString, str: CString, f: Flags)
    requires !f.pathname
    ensures PatternMatches(pat, str, f) <==>
            exists e, gs, tail :: Component(pat, 0, e, f, gs, tail) && e == |pat| && Fits(gs, str, f)
  {
    hide Component, Fits;
    ComponentExactly(pat, 0, str, 0, f);
    assert Text(str, 0, f) == str;
    forall e, gs, tail | Component(pat, 0, e, f, gs, tail) ensures e == |pat| { EndWhole(pat, e, f, gs, tail); }
  }

  lemma EndWhole(pat: CString, e: nat, f: Flags, gs: seq<Glyph>, tail: string)
    requires !f.pathname && Component(pat, 0, e, f, gs, tail)
    ensures e == |pat|
  {
  }
}
