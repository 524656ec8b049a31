/** Patterns as they are written, and what fnmatch makes of them: a reference that knows no positions. */
module WrittenPatterns {
  import opened Options
  import opened Fnmatch
  import opened WrittenSets

  /** What a component is written with. */
  datatype Glyph = Any | Many | Just(x: Mark) | Set(negation: string, items: seq<Entry>)

  function GlyphText(g: Glyph): (t: string)
    ensures |t| >= 1
  {
    match g
    case Any => "?"
    case Many => "*"
    case Just(x) => MarkText(x)
    case Set(negation, items) => "[" + negation + SetText(items) + "]"
  }

  function Spelled(gs: seq<Glyph>): string {
    if gs == [] then "" else GlyphText(gs[0]) + Spelled(gs[1..])
  }

  /** The glyph is read as it is written. */
  predicate FitGlyph(g: Glyph, f: Flags) {
    match g
    case Any => true
    case Many => true
    case Just(x) =>
      && x.c != '\0' && !(f.pathname && x.c == '/')
      && if x.Plain? then x.c !in "*?[" && !(f.escape && x.c == '\\') else f.escape
    case Set(negation, items) =>
      && negation in ["", "!", "^"] && FitSet(items, f)
      && (negation == "" && items != [] ==> Lead(items[0]) !in [Plain('!'), Plain('^')])
  }

  predicate FitAll(gs: seq<Glyph>, f: Flags) {
    forall k :: 0 <= k < |gs| ==> FitGlyph(gs[k], f)
  }

  /** Whether a glyph other than a star takes this character. */
  predicate Accepts(g: Glyph, c: char)
    requires !g.Many?
  {
    match g
    case Any => true
    case Just(x) => c == x.c
    case Set(negation, items) => Lists(items, c) <==> negation == ""
  }

  /** The component takes exactly this text: a star any part of it, every other glyph one character. */
  predicate Covers(gs: seq<Glyph>, text: string)
    decreases |gs|
  {
    if gs == [] then text == ""
    else if gs[0].Many? then exists k :: 0 <= k <= |text| && Covers(gs[1..], text[k..])
    else text != "" && Accepts(gs[0], text[0]) && Covers(gs[1..], text[1..])
  }

  // ----- one component -----

  /** From p up to its end marker at e the pattern is written so; a backslash in front of the end marker counts for
      nothing. */
  predicate Component(pat: CString, p: nat, e: nat, f: Flags, gs: seq<Glyph>, tail: string) {
    && FitAll(gs, f) && (tail == "" || (f.escape && tail == "\\"))
    && Stands(pat, p, Spelled(gs) + tail) && e == p + |Spelled(gs)| + |tail| && IsEnd(pat, e, f)
  }

  lemma ComponentSplit(pat: CString, p: nat, e: nat, f: Flags, gs: seq<Glyph>, tail: string)
    requires Component(pat, p, e, f, gs, tail) && gs != []
    ensures FitGlyph(gs[0], f) && Stands(pat, p, GlyphText(gs[0]))
    ensures Component(pat, p + |GlyphText(gs[0])|, e, f, gs[1..], tail)
  {
    hide FitGlyph, GlyphText, Stands;
    assert Spelled(gs) + tail == GlyphText(gs[0]) + (Spelled(gs[1..]) + tail);
    StandsSplit(pat, p, GlyphText(gs[0]), Spelled(gs[1..]) + tail);
  }

  /** What a glyph other than a star does at its place. */
  lemma GlyphReads(pat: CString, p: nat, f: Flags, g: Glyph, c: char)
    requires FitGlyph(g, f) && Stands(pat, p, GlyphText(g)) && !g.Many?
    ensures At(pat, p) != '*' && !PatEnd(pat, p, f)
    ensures Step(pat, p, f, c) == if Accepts(g, c) then Some(p + |GlyphText(g)|) else None
    ensures PatternEnd(pat, p, f) == PatternEnd(pat, p + |GlyphText(g)|, f)
  {
    hide *;
    match g
    case Any => AnyReads(pat, p, f, c);
    case Just(x) => JustReads(pat, p, f, x, c);
    case Set(negation, items) => ListReads(pat, p, f, negation, items, c);
  }

  lemma AnyReads(pat: CString, p: nat, f: Flags, c: char)
    requires Stands(pat, p, GlyphText(Any))
    ensures At(pat, p) != '*' && !PatEnd(pat, p, f) && Accepts(Any, c)
    ensures Step(pat, p, f, c) == Some(p + |GlyphText(Any)|)
    ensures PatternEnd(pat, p, f) == PatternEnd(pat, p + |GlyphText(Any)|, f)
  {
    hide BracketMatch, SetEnd;
    StandsOne(pat, p, '?');
  }

  lemma JustReads(pat: CString, p: nat, f: Flags, x: Mark, c: char)
    requires FitGlyph(Just(x), f) && Stands(pat, p, GlyphText(Just(x)))
    ensures At(pat, p) != '*' && !PatEnd(pat, p, f)
    ensures Step(pat, p, f, c) == if Accepts(Just(x), c) then Some(p + |GlyphText(Just(x))|) else None
    ensures PatternEnd(pat, p, f) == PatternEnd(pat, p + |GlyphText(Just(x))|, f)
  {
    hide BracketMatch, SetEnd;
    if x.Plain? {
      StandsOne(pat, p, x.c);
    } else {
      StandsSplit(pat, p, ['\\'], [x.c]);
      StandsOne(pat, p, '\\');
      StandsOne(pat, p + 1, x.c);
    }
  }

  lemma ListReads(pat: CString, p: nat, f: Flags, negation: string, items: seq<Entry>, c: char)
    requires FitGlyph(Set(negation, items), f) && Stands(pat, p, GlyphText(Set(negation, items)))
    ensures var g := Set(negation, items);
            && At(pat, p) != '*' && !PatEnd(pat, p, f)
            && Step(pat, p, f, c) == (if Accepts(g, c) then Some(p + |GlyphText(g)|) else None)
            && PatternEnd(pat, p, f) == PatternEnd(pat, p + |GlyphText(g)|, f)
  {
    hide BracketMatch, SetEnd, Lists, FitSet, SetText, Stands;
    SetGlyph(pat, p, f, negation, items, c);
  }

  lemma SetGlyph(pat: CString, p: nat, f: Flags, negation: string, items: seq<Entry>, c: char)
    requires FitGlyph(Set(negation, items), f) && Stands(pat, p, "[" + negation + SetText(items) + "]")
    ensures At(pat, p) == '[' && Written(pat, p + 1, p + |GlyphText(Set(negation, items))|, f, negation, items)
    ensures BracketMatch(pat, p + 1, f, c) ==
            if Accepts(Set(negation, items), c) then Some(p + |GlyphText(Set(negation, items))|) else None
    ensures var p0 := if At(pat, p + 1) == '!' || At(pat, p + 1) == '^' then p + 2 else p + 1;
            SetEnd(pat, p0, f) == Some(p + |GlyphText(Set(negation, items))| - 1)
  {
    hide BracketMatch, Lists, SetEnd, FitSet, SetText, Stands;
    var t := negation + SetText(items) + "]";
    assert "[" + negation + SetText(items) + "]" == "[" + t;
    StandsSplit(pat, p, "[", t);
    StandsOne(pat, p, '[');
    NoNegation(pat, p + 1, f, negation, items);
    WrittenReads(pat, p + 1, p + 1 + |t|, f, negation, items, c);
  }

  lemma NoNegation(pat: CString, p: nat, f: Flags, negation: string, items: seq<Entry>)
    requires FitGlyph(Set(negation, items), f) && Stands(pat, p, negation + SetText(items) + "]")
    ensures negation == "" ==> At(pat, p) !in "!^"
  {
    hide Stands;
    if negation == "" {
      assert "" + SetText(items) == SetText(items);
      StandsSplit(pat, p, SetText(items), "]");
      if items == [] {
        assert SetText(items) == "";
        StandsOne(pat, p, ']');
      } else {
        StandsSplit(pat, p, EntryText(items[0]), SetText(items[1..]));
        LeadStands(pat, p, items[0]);
        MarkReads(pat, p, f, Lead(items[0]));
      }
    }
  }

  lemma LeadStands(pat: CString, p: nat, e: Entry)
    requires Stands(pat, p, EntryText(e))
    ensures Stands(pat, p, MarkText(Lead(e)))
  {
    hide Stands;
    if e.Range? {
      StandsSplit(pat, p, MarkText(e.lo) + ['-'], MarkText(e.hi));
      StandsSplit(pat, p, MarkText(e.lo), ['-']);
    }
  }

  /** At the end of a component. */
  lemma EndReads(pat: CString, p: nat, e: nat, f: Flags, tail: string)
    requires Component(pat, p, e, f, [], tail)
    ensures p <= |pat| && At(pat, p) != '*' && PatEnd(pat, p, f) && PatternEnd(pat, p, f) == e
    ensures forall c :: Step(pat, p, f, c) == None
  {
    assert Spelled([]) == "" && "" + tail == tail;
    if tail != "" { StandsOne(pat, p, '\\'); }
  }

  lemma CoversMany(gs: seq<Glyph>, text: string)
    requires gs != [] && gs[0].Many?
    ensures Covers(gs, text) <==> Covers(gs[1..], text) || (text != "" && Covers(gs, text[1..]))
  {
    if Covers(gs, text) {
      var k :| 0 <= k <= |text| && Covers(gs[1..], text[k..]);
      if k > 0 {
        assert text[1..][k - 1..] == text[k..];
      } else {
        assert text[0..] == text;
      }
    }
    if Covers(gs[1..], text) { assert text[0..] == text; }
    if text != "" && Covers(gs, text[1..]) {
      var k :| 0 <= k <= |text[1..]| && Covers(gs[1..], text[1..][k..]);
      assert text[1..][k..] == text[k + 1..];
    }
  }

  /** A component matches the text that its glyphs cover. */
  lemma {:induction false} ComponentReads(pat: CString, p: nat, e: nat, f: Flags, gs: seq<Glyph>, tail: string,
                                          str: CString, s: nat)
    requires Component(pat, p, e, f, gs, tail) && s <= |str|
    ensures p <= |pat| && PatternEnd(pat, p, f) == e
    ensures Match(pat, p, str, s, f) <==> Covers(gs, Text(str, s, f))
    decreases |gs| + |str| - s
  {
    hide Step, PatEnd, PatternEnd, TextEnd, Component, Accepts, GlyphText, Covers;
    var text := Text(str, s, f);
    TextFirst(str, s, f);
    CoversUnfold(gs, text);
    if gs == [] {
      EndReads(pat, p, e, f, tail);
      MatchUnfold(pat, p, str, s, f);
    } else {
      ComponentSplit(pat, p, e, f, gs, tail);
      var q := p + |GlyphText(gs[0])|;
      Inside(pat, p, gs[0]);
      MatchUnfold(pat, p, str, s, f);
      ComponentReads(pat, q, e, f, gs[1..], tail, str, s);
      if gs[0].Many? {
        ManyReads(pat, p);
        PatternEndUnfold(pat, p, f);
        CoversMany(gs, text);
        if !IsEnd(str, s, f) { ComponentReads(pat, p, e, f, gs, tail, str, s + 1); }
      } else {
        GlyphReads(pat, p, f, gs[0], At(str, s));
        if !IsEnd(str, s, f) { ComponentReads(pat, q, e, f, gs[1..], tail, str, s + 1); }
      }
    }
  }

  lemma CoversUnfold(gs: seq<Glyph>, text: string)
    ensures gs == [] ==> Covers(gs, text) == (text == "")
    ensures gs != [] && !gs[0].Many? ==>
              Covers(gs, text) == (text != "" && Accepts(gs[0], text[0]) && Covers(gs[1..], text[1..]))
  {
  }

  lemma TextFirst(str: CString, s: nat, f: Flags)
    requires s <= |str|
    ensures IsEnd(str, s, f) <==> Text(str, s, f) == ""
    ensures !IsEnd(str, s, f) ==>
              s < |str| && Text(str, s, f)[0] == str[s] == At(str, s) && Text(str, s, f)[1..] == Text(str, s + 1, f)
  {
  }

  lemma Inside(pat: CString, p: nat, g: Glyph)
    requires Stands(pat, p, GlyphText(g))
    ensures p < |pat|
  {
  }

  lemma ManyReads(pat: CString, p: nat)
    requires Stands(pat, p, GlyphText(Many))
    ensures At(pat, p) == '*' && |GlyphText(Many)| == 1
  {
    StandsOne(pat, p, '*');
  }

  /** Every component whose brackets are closed is written in one such way. */
  lemma {:induction false} ComponentSpelled(pat: CString, p: nat, f: Flags)
    returns (e: nat, gs: seq<Glyph>, tail: string)
    requires p <= |pat| && Tokens(pat, p, f).Some?
    ensures Component(pat, p, e, f, gs, tail)
    decreases |pat| - p
  {
    hide SetEnd, Component, FitGlyph, GlyphText;
    if At(pat, p) == '*' || At(pat, p) == '?' {
      var g := if At(pat, p) == '*' then Many else Any;
      var rest;
      e, rest, tail := ComponentSpelled(pat, p + 1, f);
      gs := [g] + rest;
      SimpleGlyph(pat, p, f, g);
      ComponentJoin(pat, p, e, f, g, rest, tail);
    } else if At(pat, p) == '[' {
      var p0 := if At(pat, p + 1) == '!' || At(pat, p + 1) == '^' then p + 2 else p + 1;
      var negation, items := BracketSpelled(pat, p + 1, f, 'x');
      var end := SetEnd(pat, p0, f).value + 1;
      var rest;
      e, rest, tail := ComponentSpelled(pat, end, f);
      var g := Set(negation, items);
      gs := [g] + rest;
      SetSpelledGlyph(pat, p, f, negation, items, end);
      ComponentJoin(pat, p, e, f, g, rest, tail);
    } else {
      var q := Unescape(pat, p, f);
      if IsEnd(pat, q, f) {
        e, gs, tail := q, [], if q == p then "" else "\\";
        EndSpelled(pat, p, f);
      } else {
        var rest;
        e, rest, tail := ComponentSpelled(pat, q + 1, f);
        var g := Just(if q == p then Plain(pat[p]) else Escaped(pat[q]));
        gs := [g] + rest;
        OneGlyph(pat, p, f);
        ComponentJoin(pat, p, e, f, g, rest, tail);
      }
    }
  }

  lemma SimpleGlyph(pat: CString, p: nat, f: Flags, g: Glyph)
    requires p < |pat| && ((g == Many && pat[p] == '*') || (g == Any && pat[p] == '?'))
    ensures FitGlyph(g, f) && Stands(pat, p, GlyphText(g)) && |GlyphText(g)| == 1
  {
    StandsOne(pat, p, pat[p]);
  }

  lemma OneGlyph(pat: CString, p: nat, f: Flags)
    requires p <= |pat| && At(pat, p) !in "*?[" && !IsEnd(pat, Unescape(pat, p, f), f)
    ensures var q := Unescape(pat, p, f);
            var g := Just(if q == p then Plain(pat[p]) else Escaped(pat[q]));
            FitGlyph(g, f) && Stands(pat, p, GlyphText(g)) && p + |GlyphText(g)| == q + 1
  {
    var q := Unescape(pat, p, f);
    if q == p { assert pat[p..p + 1] == [pat[p]]; } else { assert pat[p..p + 2] == ['\\', pat[q]]; }
  }

  lemma EndSpelled(pat: CString, p: nat, f: Flags)
    requires p <= |pat| && At(pat, p) !in "*?[" && IsEnd(pat, Unescape(pat, p, f), f)
    ensures var q := Unescape(pat, p, f); Component(pat, p, q, f, [], if q == p then "" else "\\")
  {
    var q := Unescape(pat, p, f);
    var tail := if q == p then "" else "\\";
    assert Spelled([]) == "" && "" + tail == tail;
    if q > p { StandsOne(pat, p, '\\'); }
  }

  lemma SetSpelledGlyph(pat: CString, p: nat, f: Flags, negation: string, items: seq<Entry>, end: nat)
    requires At(pat, p) == '[' && Written(pat, p + 1, end, f, negation, items)
    ensures var g := Set(negation, items);
            FitGlyph(g, f) && Stands(pat, p, GlyphText(g)) && p + |GlyphText(g)| == end
  {
    hide FitSet, Stands, SetText;
    var t := negation + SetText(items) + "]";
    assert GlyphText(Set(negation, items)) == "[" + t;
    StandsOne(pat, p, '[');
    StandsSplit(pat, p, "[", t);
    if negation == "" && items != [] { NotNegated(pat, p + 1, f, items); }
  }

  lemma NotNegated(pat: CString, p: nat, f: Flags, items: seq<Entry>)
    requires items != [] && FitSet(items, f) && Stands(pat, p, "" + SetText(items) + "]") && At(pat, p) !in "!^"
    ensures Lead(items[0]) !in [Plain('!'), Plain('^')]
  {
    hide FitSet, Stands, SetText;
    assert "" + SetText(items) == SetText(items);
    StandsSplit(pat, p, SetText(items), "]");
    LeadRead(pat, p, f, items);
  }

  lemma LeadRead(pat: CString, p: nat, f: Flags, items: seq<Entry>)
    requires items != [] && FitSet(items, f) && Stands(pat, p, SetText(items))
    ensures At(pat, p) == if Lead(items[0]).Plain? then Lead(items[0]).c else '\\'
  {
    hide Stands, SetText;
    SetTextFirst(items);
    StandsSplit(pat, p, EntryText(items[0]), SetText(items[1..]));
    LeadStands(pat, p, items[0]);
    MarkReads(pat, p, f, Lead(items[0]));
  }

  lemma SetTextFirst(items: seq<Entry>)
    requires items != []
    ensures SetText(items) == EntryText(items[0]) + SetText(items[1..])
  {
  }

  lemma ComponentJoin(pat: CString, p: nat, e: nat, f: Flags, g: Glyph, rest: seq<Glyph>, tail: string)
    requires FitGlyph(g, f) && Stands(pat, p, GlyphText(g))
    requires Component(pat, p + |GlyphText(g)|, e, f, rest, tail)
    ensures Component(pat, p, e, f, [g] + rest, tail)
  {
    hide FitGlyph, GlyphText, Stands;
    var gs := [g] + rest;
    assert gs[1..] == rest;
    assert Spelled(gs) + tail == GlyphText(g) + (Spelled(rest) + tail);
    StandsSplit(pat, p, GlyphText(g), Spelled(rest) + tail);
  }

  /** What starts with a period is taken only by a component that writes the period. */
  predicate Allows(gs: seq<Glyph>, text: string, f: Flags) {
    f.period && text != "" && text[0] == '.' ==> gs != [] && gs[0].Just? && gs[0].x.c == '.'
  }

  lemma PeriodReads(pat: CString, p: nat, e: nat, f: Flags, gs: seq<Glyph>, tail: string)
    requires Component(pat, p, e, f, gs, tail)
    ensures At(pat, Unescape(pat, p, f)) == '.' <==> gs != [] && gs[0].Just? && gs[0].x.c == '.'
  {
    hide FitGlyph, GlyphText, Stands;
    if gs == [] {
      EndReads(pat, p, e, f, tail);
    } else {
      ComponentSplit(pat, p, e, f, gs, tail);
      FirstReads(pat, p, f, gs[0]);
    }
  }

  lemma FirstReads(pat: CString, p: nat, f: Flags, g: Glyph)
    requires FitGlyph(g, f) && Stands(pat, p, GlyphText(g))
    ensures At(pat, Unescape(pat, p, f)) == '.' <==> g.Just? && g.x.c == '.'
  {
    hide SetText, FitSet;
    match g
    case Any => StandsOne(pat, p, '?');
    case Many => StandsOne(pat, p, '*');
    case Just(x) =>
      if x.Plain? {
        StandsOne(pat, p, x.c);
      } else {
        StandsSplit(pat, p, ['\\'], [x.c]);
        StandsOne(pat, p, '\\');
        StandsOne(pat, p + 1, x.c);
      }
    case Set(negation, items) =>
      SetGlyph(pat, p, f, negation, items, 'x');
  }

  /** A component takes a text: its glyphs cover it, and a period in front is written out. */
  predicate Fits(gs: seq<Glyph>, text: string, f: Flags) {
    Allows(gs, text, f) && Covers(gs, text)
  }

  /** How the component at p is matched, by the glyphs it is written with. */
  lemma ComponentFits(pat: CString, p: nat, e: nat, f: Flags, gs: seq<Glyph>, tail: string, str: CString, s: nat)
    requires Component(pat, p, e, f, gs, tail) && s <= |str|
    ensures p <= |pat| && PatternEnd(pat, p, f) == e
    ensures ComponentMatch(pat, p, str, s, f) <==> Fits(gs, Text(str, s, f), f)
  {
    hide Component, Covers, Match, PatternEnd;
    ComponentReads(pat, p, e, f, gs, tail, str, s);
    PeriodReads(pat, p, e, f, gs, tail);
    PeriodFirst(str, s, f);
  }

  /** A component is never empty in front of a period: no end marker is one. */
  lemma PeriodFirst(str: CString, s: nat, f: Flags)
    requires s <= |str|
    ensures At(str, s) == '.' <==> Text(str, s, f) != "" && Text(str, s, f)[0] == '.'
  {
    TextFirst(str, s, f);
  }

  /** A component matches exactly if it is written with glyphs that fit the text. */
  lemma ComponentExactly(pat: CString, p: nat, str: CString, s: nat, f: Flags)
    requires p <= |pat| && s <= |str|
    ensures ComponentMatch(pat, p, str, s, f) <==>
            exists e, gs, tail :: Component(pat, p, e, f, gs, tail) && Fits(gs, Text(str, s, f), f)
  {
    hide Component, Fits, Match, Tokens, Assigned;
    if ComponentMatch(pat, p, str, s, f) {
      MatchIsAssignment(pat, p, str, s, f);
      var e, gs, tail := ComponentSpelled(pat, p, f);
      ComponentFits(pat, p, e, f, gs, tail, str, s);
    }
    if e, gs, tail :| Component(pat, p, e, f, gs, tail) && Fits(gs, Text(str, s, f), f) {
      ComponentFits(pat, p, e, f, gs, tail, str, s);
    }
  }
}
