/** bracket, fnmatch_helper and fnmatch of dir.c, on one-unit characters without case folding:
    two nested greedy matchers that each remember only their last wildcard. */
module Fnmatch {
  import opened Options

  /** A C string: no terminator inside. */
  type CString = s: string | forall i :: 0 <= i < |s| ==> s[i] != '\0'

  /** !FNM_NOESCAPE, FNM_PATHNAME and !FNM_DOTMATCH. */
  datatype Flags = Flags(escape: bool, pathname: bool, period: bool)

  function At(s: CString, i: nat): char {
    if i < |s| then s[i] else '\0'
  }

  /** UNESCAPE(p) */
  function Unescape(pat: CString, p: nat, f: Flags): nat {
    if f.escape && At(pat, p) == '\\' then p + 1 else p
  }

  /** ISEND(p) */
  predicate IsEnd(s: CString, i: nat, f: Flags) {
    i >= |s| || (f.pathname && s[i] == '/')
  }

  // ----- bracket expressions -----

  /** One element of a bracket expression: a character or a range. */
  datatype Item = Unterminated | Item(lo: char, hi: char, next: nat)

  function NextItem(pat: CString, p: nat, f: Flags): (r: Item)
    ensures r.Item? ==> p < r.next <= |pat|
  {
    var t1 := Unescape(pat, p, f);
    if t1 >= |pat| then Unterminated
    else if At(pat, t1 + 1) == '-' && At(pat, t1 + 2) != ']' then
      var t2 := Unescape(pat, t1 + 2, f);
      if t2 >= |pat| then Unterminated else Item(pat[t1], pat[t2], t2 + 1)
    else Item(pat[t1], pat[t1], t1 + 1)
  }

  /** Whether an element accepts a character; the ends of a range count even when reversed. */
  predicate ItemHas(lo: char, hi: char, c: char) {
    c == lo || c == hi || lo <= c <= hi
  }

  /** Where the elements from p on end: the position of the closing bracket. */
  function SetEnd(pat: CString, p: nat, f: Flags): (r: Option<nat>)
    ensures r.Some? ==> p <= r.value < |pat|
    decreases |pat| - p
  {
    if At(pat, p) == ']' then Some(p)
    else
      var it := NextItem(pat, p, f);
      if it.Unterminated? then None else SetEnd(pat, it.next, f)
  }

  /** Whether some element from p on accepts c. */
  predicate InSet(pat: CString, p: nat, f: Flags, c: char)
    decreases |pat| - p
  {
    At(pat, p) != ']' &&
    var it := NextItem(pat, p, f);
    it.Item? && (ItemHas(it.lo, it.hi, c) || InSet(pat, it.next, f, c))
  }

  /** A bracket expression, p being just inside it: where matching goes on if it accepts c. */
  function BracketMatch(pat: CString, p: nat, f: Flags, c: char): (r: Option<nat>)
    ensures r.Some? ==> p < r.value <= |pat|
  {
    var not := At(pat, p) == '!' || At(pat, p) == '^';
    var p0 := if not then p + 1 else p;
    var e := SetEnd(pat, p0, f);
    if e.Some? && InSet(pat, p0, f, c) != not then Some(e.value + 1) else None
  }

  lemma SetUnfold(pat: CString, p: nat, f: Flags, c: char)
    ensures At(pat, p) == ']' ==> SetEnd(pat, p, f) == Some(p) && !InSet(pat, p, f, c)
    ensures At(pat, p) != ']' ==>
              var it := NextItem(pat, p, f);
              if it.Unterminated? then SetEnd(pat, p, f) == None
              else && SetEnd(pat, p, f) == SetEnd(pat, it.next, f)
                   && InSet(pat, p, f, c) == (ItemHas(it.lo, it.hi, c) || InSet(pat, it.next, f, c))
  {
  }

  /** bracket */
  method Bracket(pat: CString, p0: nat, f: Flags, c: char) returns (r: Option<nat>)
    requires p0 <= |pat|
    ensures r == BracketMatch(pat, p0, f, c)
  {
    hide SetEnd, InSet, NextItem;
    var p := p0;
    var ok, not := false, false;
    if At(pat, p) == '!' || At(pat, p) == '^' {
      not := true;
      p := p + 1;
    }
    ghost var start := p;
    while At(pat, p) != ']'
      invariant start <= p <= |pat|
      invariant SetEnd(pat, start, f) == SetEnd(pat, p, f)
      invariant SetEnd(pat, p, f).Some? ==> (InSet(pat, start, f, c) <==> ok || InSet(pat, p, f, c))
      decreases |pat| - p
    {
      SetUnfold(pat, p, f, c);
      var it := ReadItem(pat, p, f);
      if it.Unterminated? { return None; }
      p := it.next;
      if ok { continue; }
      if it.lo == c || it.hi == c {
        ok := true;
        continue;
      }
      if c < it.lo { continue; }
      if c > it.hi { continue; }
      ok := true;
    }
    SetUnfold(pat, p, f, c);
    r := if ok == not then None else Some(p + 1);
  }

  /** The part of the loop of bracket that reads one character or range. */
  method ReadItem(pat: CString, p0: nat, f: Flags) returns (r: Item)
    requires p0 <= |pat|
    ensures r == NextItem(pat, p0, f)
    ensures r.Item? ==> p0 < r.next <= |pat|
  {
    var t1 := p0;
    if f.escape && At(pat, t1) == '\\' { t1 := t1 + 1; }
    if t1 >= |pat| { return Unterminated; }
    var p := t1 + 1;
    if At(pat, p) == '-' && At(pat, p + 1) != ']' {
      var t2 := p + 1;
      if f.escape && At(pat, t2) == '\\' { t2 := t2 + 1; }
      if t2 >= |pat| { return Unterminated; }
      r := Item(pat[t1], pat[t2], t2 + 1);
    } else {
      r := Item(pat[t1], pat[t1], p);
    }
  }

  // ----- one component -----

  /** One step of the pattern, not at a star: the position after it if it accepts c. */
  function Step(pat: CString, p: nat, f: Flags, c: char): (r: Option<nat>)
    ensures r.Some? ==> p < r.value <= |pat|
  {
    if At(pat, p) == '?' then Some(p + 1)
    else if At(pat, p) == '[' then BracketMatch(pat, p + 1, f, c)
    else
      var q := Unescape(pat, p, f);
      if !IsEnd(pat, q, f) && pat[q] == c then Some(q + 1) else None
  }

  /** The pattern component is used up at p. */
  predicate PatEnd(pat: CString, p: nat, f: Flags) {
    At(pat, p) !in "*?[" && IsEnd(pat, Unescape(pat, p, f), f)
  }

  /** The declarative match of the rest of one component: a star takes any text within it. */
  predicate Match(pat: CString, p: nat, str: CString, s: nat, f: Flags)
    requires p <= |pat| && s <= |str|
    decreases |pat| - p + |str| - s
  {
    if At(pat, p) == '*' then
      Match(pat, p + 1, str, s, f) || (!IsEnd(str, s, f) && Match(pat, p, str, s + 1, f))
    else if IsEnd(str, s, f) then PatEnd(pat, p, f)
    else
      var q := Step(pat, p, f, str[s]);
      q.Some? && Match(pat, q.value, str, s + 1, f)
  }

  /** The end of the text component that s lies in. */
  function TextEnd(str: CString, s: nat, f: Flags): (e: nat)
    requires s <= |str|
    ensures s <= e <= |str| && IsEnd(str, e, f) && forall k :: s <= k < e ==> !IsEnd(str, k, f)
    decreases |str| - s
  {
    if IsEnd(str, s, f) then s else TextEnd(str, s + 1, f)
  }

  /** The end marker of the pattern component that p lies in. */
  function PatternEnd(pat: CString, p: nat, f: Flags): (e: nat)
    requires p <= |pat|
    ensures p <= e <= |pat|
    decreases |pat| - p
  {
    if At(pat, p) == '*' || At(pat, p) == '?' then PatternEnd(pat, p + 1, f)
    else if At(pat, p) == '[' then
      var p0 := if At(pat, p + 1) == '!' || At(pat, p + 1) == '^' then p + 2 else p + 1;
      var e := SetEnd(pat, p0, f);
      if e.Some? then PatternEnd(pat, e.value + 1, f) else p
    else
      var q := Unescape(pat, p, f);
      if IsEnd(pat, q, f) then q else PatternEnd(pat, q + 1, f)
  }

  /** A match must respect the leading period of the component. */
  predicate ComponentMatch(pat: CString, p: nat, str: CString, s: nat, f: Flags)
    requires p <= |pat| && s <= |str|
  {
    !(f.period && At(str, s) == '.' && At(pat, Unescape(pat, p, f)) != '.') && Match(pat, p, str, s, f)
  }

  lemma StepPosition(pat: CString, p: nat, f: Flags, c: char, d: char)
    requires p <= |pat| && Step(pat, p, f, c).Some?
    ensures Step(pat, p, f, d).Some? ==> Step(pat, p, f, d) == Step(pat, p, f, c)
    ensures !PatEnd(pat, p, f)
    ensures At(pat, p) != '*' ==> PatternEnd(pat, p, f) == PatternEnd(pat, Step(pat, p, f, c).value, f)
  {
  }

  /** A star that matches leaves the rest to match from some later position of the component. */
  lemma {:induction false} StarWitness(pat: CString, p: nat, str: CString, s: nat, f: Flags) returns (k: nat)
    requires p <= |pat| && s <= |str| && At(pat, p) == '*' && Match(pat, p, str, s, f)
    ensures s <= k <= TextEnd(str, s, f) && Match(pat, p + 1, str, k, f)
    decreases |str| - s
  {
    if Match(pat, p + 1, str, s, f) {
      k := s;
    } else {
      k := StarWitness(pat, p, str, s + 1, f);
    }
  }

  /** A star may swallow more text first. */
  lemma {:induction false} StarEarlier(pat: CString, p: nat, str: CString, s: nat, k: nat, f: Flags)
    requires p < |pat| && pat[p] == '*' && s <= |str| && s <= k <= TextEnd(str, s, f)
    requires Match(pat, p, str, k, f)
    ensures Match(pat, p, str, s, f)
    decreases k - s
  {
    if s < k {
      StarEarlier(pat, p, str, s + 1, k, f);
    }
  }

  /** A star at the end of the pattern component takes the rest of the text component. */
  lemma StarAtEnd(pat: CString, p: nat, str: CString, s: nat, f: Flags)
    requires p < |pat| && pat[p] == '*' && s <= |str| && PatEnd(pat, p + 1, f)
    ensures Match(pat, p, str, s, f)
  {
    var e := TextEnd(str, s, f);
    assert Match(pat, p + 1, str, e, f);
    TextEndSame(str, s, e, f);
    StarEarlier(pat, p, str, s, e, f);
  }

  lemma {:induction false} TextEndSame(str: CString, s: nat, k: nat, f: Flags)
    requires s <= |str| && s <= k <= TextEnd(str, s, f)
    ensures TextEnd(str, k, f) == TextEnd(str, s, f)
    decreases k - s
  {
    if s < k {
      TextEndSame(str, s + 1, k, f);
    }
  }

  /** Adjacent stars are one star. */
  lemma {:induction false} StarStar(pat: CString, p: nat, str: CString, s: nat, f: Flags)
    requires p + 1 < |pat| && pat[p] == '*' && pat[p + 1] == '*' && s <= |str|
    ensures Match(pat, p, str, s, f) == Match(pat, p + 1, str, s, f)
    ensures PatternEnd(pat, p, f) == PatternEnd(pat, p + 1, f)
    decreases |str| - s
  {
    if !IsEnd(str, s, f) {
      StarStar(pat, p, str, s + 1, f);
    }
  }

  /** What the helper knows once it has met a star: star is the position after the last one, stmp
      where it currently lets the rest start, and (p, s) how far the rest has got since. */
  ghost predicate SinceStar(pat: CString, star: nat, p: nat, str: CString, stmp: nat, s: nat, f: Flags)
    requires star <= |pat| && p <= |pat| && stmp <= |str| && s <= |str|
  {
    && (Match(pat, p, str, s, f) ==> Match(pat, star, str, stmp, f))
    && forall k: nat {:trigger Match(pat, star, str, k, f)} ::
         stmp <= k <= TextEnd(str, stmp, f) && Match(pat, star, str, k, f)
         ==> k + (s - stmp) <= TextEnd(str, stmp, f) && Match(pat, p, str, k + (s - stmp), f)
  }

  lemma SinceStarStep(pat: CString, star: nat, p: nat, str: CString, stmp: nat, s: nat, f: Flags)
    requires star <= |pat| && p <= |pat| && stmp <= s < |str| && !IsEnd(str, s, f)
    requires s < TextEnd(str, stmp, f)
    requires At(pat, p) != '*' && Step(pat, p, f, str[s]).Some?
    requires SinceStar(pat, star, p, str, stmp, s, f)
    ensures SinceStar(pat, star, Step(pat, p, f, str[s]).value, str, stmp, s + 1, f)
  {
    hide Step, PatEnd, TextEnd;
    var q := Step(pat, p, f, str[s]).value;
    var e := TextEnd(str, stmp, f);
    forall k: nat | stmp <= k <= e && Match(pat, star, str, k, f)
      ensures k + (s + 1 - stmp) <= e && Match(pat, q, str, k + (s + 1 - stmp), f)
    {
      var k' := k + (s - stmp);
      assert k' <= e && Match(pat, p, str, k', f);
      StepPosition(pat, p, f, str[s], At(str, k'));
      if k' < e { StepPosition(pat, p, f, str[s], str[k']); }
    }
  }

  /** Backing up to the last star loses nothing when the rest cannot match from (p, s). */
  lemma BackToStar(pat: CString, star: nat, p: nat, str: CString, stmp: nat, s: nat, f: Flags)
    requires 1 <= star <= |pat| && pat[star - 1] == '*' && p <= |pat| && stmp <= |str|
    requires stmp <= s <= TextEnd(str, stmp, f)
    requires SinceStar(pat, star, p, str, stmp, s, f) && !Match(pat, p, str, s, f)
    ensures !IsEnd(str, s, f) ==>
            stmp < |str| && Match(pat, star - 1, str, stmp, f) == Match(pat, star - 1, str, stmp + 1, f)
    ensures IsEnd(str, s, f) ==> !Match(pat, star - 1, str, stmp, f)
  {
    hide Step, PatEnd;
    assert !Match(pat, star, str, stmp, f);
    if IsEnd(str, s, f) && Match(pat, star - 1, str, stmp, f) {
      var k := StarWitness(pat, star - 1, str, stmp, f);
    }
  }

  /** Only the last star needs to be remembered: meeting a new one, the older can be forgotten. */
  lemma ForgetStar(pat: CString, star: nat, p: nat, str: CString, stmp: nat, s: nat, f: Flags)
    requires 1 <= star <= |pat| && pat[star - 1] == '*' && p < |pat| && pat[p] == '*'
    requires stmp <= |str| && stmp <= s <= TextEnd(str, stmp, f)
    requires SinceStar(pat, star, p, str, stmp, s, f)
    ensures Match(pat, star - 1, str, stmp, f) == Match(pat, p, str, s, f)
  {
    hide Step, PatEnd, TextEnd;
    if Match(pat, star - 1, str, stmp, f) {
      var k := StarWitness(pat, star - 1, str, stmp, f);
      TextEndSame(str, stmp, s, f);
      StarEarlier(pat, p, str, s, k + (s - stmp), f);
    }
  }

  lemma InsideEnd(str: CString, s0: nat, s: nat, f: Flags)
    requires s0 <= s <= |str| && s <= TextEnd(str, s0, f)
    ensures TextEnd(str, s, f) == TextEnd(str, s0, f)
    ensures IsEnd(str, s, f) <==> s == TextEnd(str, s0, f)
  {
    TextEndSame(str, s0, s, f);
  }

  lemma PatternEndUnfold(pat: CString, p: nat, f: Flags)
    requires p <= |pat|
    ensures At(pat, p) == '*' ==> PatternEnd(pat, p, f) == PatternEnd(pat, p + 1, f)
    ensures PatEnd(pat, p, f) ==> PatternEnd(pat, p, f) == Unescape(pat, p, f)
  {
  }

  lemma MatchUnfold(pat: CString, p: nat, str: CString, s: nat, f: Flags)
    requires p <= |pat| && s <= |str|
    ensures At(pat, p) == '*' && Match(pat, p + 1, str, s, f) ==> Match(pat, p, str, s, f)
    ensures At(pat, p) == '*' && IsEnd(str, s, f) ==> Match(pat, p, str, s, f) == Match(pat, p + 1, str, s, f)
    ensures At(pat, p) != '*' && IsEnd(str, s, f) ==> Match(pat, p, str, s, f) == PatEnd(pat, p, f)
    ensures At(pat, p) != '*' && !IsEnd(str, s, f) ==>
              var q := Step(pat, p, f, str[s]);
              Match(pat, p, str, s, f) == (q.Some? && Match(pat, q.value, str, s + 1, f))
  {
  }

  lemma SinceStarInit(pat: CString, p: nat, str: CString, s: nat, f: Flags)
    requires p <= |pat| && s <= |str|
    ensures SinceStar(pat, p, p, str, s, s, f)
  {
  }

  lemma SinceStarUse(pat: CString, star: nat, p: nat, str: CString, stmp: nat, s: nat, f: Flags)
    requires 1 <= star <= |pat| && pat[star - 1] == '*' && p <= |pat| && stmp <= |str| && s <= |str|
    requires SinceStar(pat, star, p, str, stmp, s, f) && Match(pat, p, str, s, f)
    ensures Match(pat, star - 1, str, stmp, f)
  {
  }

  /** The star at hand and every star right behind it are skipped. */
  method SkipStars(pat: CString, p0: nat, ghost str: CString, ghost s: nat, f: Flags) returns (p: nat)
    requires p0 < |pat| && pat[p0] == '*' && s <= |str|
    ensures p0 < p <= |pat| && pat[p - 1] == '*' && At(pat, p) != '*'
    ensures Match(pat, p0, str, s, f) == Match(pat, p - 1, str, s, f)
    ensures PatternEnd(pat, p, f) == PatternEnd(pat, p0, f)
  {
    hide Match, PatternEnd;
    p := p0 + 1;
    while At(pat, p) == '*'
      invariant p0 < p <= |pat| && pat[p - 1] == '*'
      invariant Match(pat, p0, str, s, f) == Match(pat, p - 1, str, s, f)
      invariant PatternEnd(pat, p - 1, f) == PatternEnd(pat, p0, f)
      decreases |pat| - p
    {
      StarStar(pat, p - 1, str, s, f);
      p := p + 1;
    }
    PatternEndUnfold(pat, p - 1, f);
  }

  /** The cases '?', '[' and an ordinary character against a character of the text. */
  method TryStep(pat: CString, p: nat, str: CString, s: nat, f: Flags) returns (q: Option<nat>)
    requires p <= |pat| && s < |str|
    ensures q == Step(pat, p, f, str[s])
  {
    if At(pat, p) == '?' {
      q := Some(p + 1);
    } else if At(pat, p) == '[' {
      q := Bracket(pat, p + 1, f, str[s]);
    } else {
      var p' := Unescape(pat, p, f);
      if IsEnd(pat, p', f) { return None; }
      if pat[p'] == str[s] { return Some(p' + 1); }
      q := None;
    }
  }

  /** fnmatch_helper: matches one component (or all of the text, without FNM_PATHNAME), and on
      success leaves p at the end marker of the pattern component. */
  method FnmatchHelper(pat: CString, p0: nat, str: CString, s0: nat, f: Flags) returns (matched: bool, p: nat, s: nat)
    requires p0 <= |pat| && s0 <= |str|
    ensures matched == ComponentMatch(pat, p0, str, s0, f)
    ensures p <= |pat| && s0 <= s <= TextEnd(str, s0, f)
    ensures matched ==> p == PatternEnd(pat, p0, f) && IsEnd(pat, p, f)
  {
    hide Match, Step, TextEnd, PatternEnd, SinceStar, PatEnd;
    p, s := p0, s0;
    matched := false;
    if f.period && At(str, s) == '.' && At(pat, Unescape(pat, p, f)) != '.' { return; }
    ghost var e := TextEnd(str, s0, f);
    var ptmp, stmp := 0, 0;  // ptmp == 0: no star met
    while true
      invariant p <= |pat| && s0 <= s <= e && ptmp <= p
      invariant PatternEnd(pat, p, f) == PatternEnd(pat, p0, f)
      invariant ptmp == 0 ==> Match(pat, p0, str, s0, f) == Match(pat, p, str, s, f)
      invariant ptmp > 0 ==> s0 <= stmp <= s && pat[ptmp - 1] == '*' && At(pat, ptmp) != '*'
      invariant ptmp > 0 ==> PatternEnd(pat, ptmp, f) == PatternEnd(pat, p0, f)
      invariant ptmp > 0 ==> Match(pat, p0, str, s0, f) == Match(pat, ptmp - 1, str, stmp, f)
      invariant ptmp > 0 ==> SinceStar(pat, ptmp, p, str, stmp, s, f)
      decreases |pat| - ptmp, |str| - stmp, |pat| - p
    {
      InsideEnd(str, s0, s, f);
      if ptmp > 0 { InsideEnd(str, s0, stmp, f); }
      MatchUnfold(pat, p, str, s, f);
      PatternEndUnfold(pat, p, f);
      if At(pat, p) == '*' {
        if ptmp > 0 { ForgetStar(pat, ptmp, p, str, stmp, s, f); }
        p := SkipStars(pat, p, str, s, f);
        MatchUnfold(pat, p - 1, str, s, f);
        MatchUnfold(pat, p, str, s, f);
        if IsEnd(pat, Unescape(pat, p, f), f) {
          StarFinishes(pat, p, str, s, f);
          p := Unescape(pat, p, f);
          return true, p, s;
        }
        if IsEnd(str, s, f) {
          NotPatEnd(pat, p, f);
          return;
        }
        ptmp, stmp := p, s;
        SinceStarInit(pat, p, str, s, f);
        continue;
      }
      if IsEnd(str, s, f) {
        matched := At(pat, p) !in "?[" && IsEnd(pat, Unescape(pat, p, f), f);
        PatEndIs(pat, p, f);
        if matched {
          if ptmp > 0 { SinceStarUse(pat, ptmp, p, str, stmp, s, f); }
          p := Unescape(pat, p, f);
        } else if ptmp > 0 {
          BackToStar(pat, ptmp, p, str, stmp, s, f);
        }
        return;
      }
      var q := TryStep(pat, p, str, s, f);
      if q.Some? {
        StepPosition(pat, p, f, str[s], str[s]);
        if ptmp > 0 { SinceStarStep(pat, ptmp, p, str, stmp, s, f); }
        p := q.value;
        s := s + 1;
        continue;
      }
      // failed: try next '*' position
      if ptmp == 0 { return; }
      BackToStar(pat, ptmp, p, str, stmp, s, f);
      p := ptmp;
      stmp := stmp + 1;
      s := stmp;
      SinceStarInit(pat, p, str, s, f);
    }
  }

  lemma PatEndIs(pat: CString, p: nat, f: Flags)
    requires At(pat, p) != '*'
    ensures PatEnd(pat, p, f) == (At(pat, p) !in "?[" && IsEnd(pat, Unescape(pat, p, f), f))
  {
  }

  lemma NotPatEnd(pat: CString, p: nat, f: Flags)
    requires !IsEnd(pat, Unescape(pat, p, f), f)
    ensures !PatEnd(pat, p, f)
  {
  }

  lemma StarFinishes(pat: CString, p: nat, str: CString, s: nat, f: Flags)
    requires 1 <= p <= |pat| && pat[p - 1] == '*' && At(pat, p) != '*' && s <= |str|
    requires IsEnd(pat, Unescape(pat, p, f), f)
    ensures Match(pat, p - 1, str, s, f) && PatternEnd(pat, p, f) == Unescape(pat, p, f)
  {
    hide Match;
    assert PatEnd(pat, p, f);
    StarAtEnd(pat, p - 1, str, s, f);
  }

  // ----- matches as assignments of text to wildcards -----

  /** A pattern component as a list of tokens: a star, or what stands at a position and takes one
      character. */
  datatype Token = Star | One(at: nat)

  /** The tokens from p to the end of the component; none if a bracket is left open. */
  function Tokens(pat: CString, p: nat, f: Flags): (r: Option<seq<Token>>)
    requires p <= |pat|
    decreases |pat| - p
  {
    if At(pat, p) == '*' then Then(Star, Tokens(pat, p + 1, f))
    else if At(pat, p) == '?' then Then(One(p), Tokens(pat, p + 1, f))
    else if At(pat, p) == '[' then
      var p0 := if At(pat, p + 1) == '!' || At(pat, p + 1) == '^' then p + 2 else p + 1;
      var e := SetEnd(pat, p0, f);
      if e.Some? then Then(One(p), Tokens(pat, e.value + 1, f)) else None
    else
      var q := Unescape(pat, p, f);
      if IsEnd(pat, q, f) then Some([]) else Then(One(p), Tokens(pat, q + 1, f))
  }

  function Then(t: Token, rest: Option<seq<Token>>): Option<seq<Token>> {
    if rest.Some? then Some([t] + rest.value) else None
  }

  /** lens says how many characters of the text each token takes: a star any number, every other
      token one character that it accepts; together they take all of the text. */
  predicate Assigned(pat: CString, toks: seq<Token>, text: string, lens: seq<nat>, f: Flags) {
    |lens| == |toks| &&
    if toks == [] then text == ""
    else
      && lens[0] <= |text|
      && (toks[0].One? ==> lens[0] == 1 && Step(pat, toks[0].at, f, text[0]).Some?)
      && Assigned(pat, toks[1..], text[lens[0]..], lens[1..], f)
  }

  function Text(str: CString, s: nat, f: Flags): string
    requires s <= |str|
  {
    str[s..TextEnd(str, s, f)]
  }

  lemma TokensStep(pat: CString, p: nat, f: Flags, c: char)
    requires p <= |pat| && At(pat, p) != '*' && Step(pat, p, f, c).Some?
    ensures Tokens(pat, p, f) == Then(One(p), Tokens(pat, Step(pat, p, f, c).value, f))
  {
  }

  lemma TokensEnd(pat: CString, p: nat, f: Flags)
    requires p <= |pat| && At(pat, p) != '*'
    ensures PatEnd(pat, p, f) <==> Tokens(pat, p, f) == Some([])
    ensures Tokens(pat, p, f).Some? && Tokens(pat, p, f).value != [] ==> Tokens(pat, p, f).value[0] == One(p)
  {
  }

  /** A match yields an assignment. */
  lemma {:induction false} MatchAssigns(pat: CString, p: nat, str: CString, s: nat, f: Flags) returns (lens: seq<nat>)
    requires p <= |pat| && s <= |str| && Match(pat, p, str, s, f)
    ensures Tokens(pat, p, f).Some? && Assigned(pat, Tokens(pat, p, f).value, Text(str, s, f), lens, f)
    decreases |pat| - p + |str| - s
  {
    hide Step, SetEnd, PatEnd;
    if At(pat, p) == '*' {
      if Match(pat, p + 1, str, s, f) {
        lens := MatchAssigns(pat, p + 1, str, s, f);
        assert Text(str, s, f)[0..] == Text(str, s, f);
        lens := [0] + lens;
      } else {
        lens := MatchAssigns(pat, p, str, s + 1, f);
        var toks := Tokens(pat, p, f).value;
        assert Text(str, s, f)[lens[0] + 1..] == Text(str, s + 1, f)[lens[0]..];
        var longer := lens[0 := lens[0] + 1];
        assert longer[1..] == lens[1..];
        lens := longer;
      }
    } else if IsEnd(str, s, f) {
      TokensEnd(pat, p, f);
      lens := [];
    } else {
      TokensStep(pat, p, f, str[s]);
      lens := MatchAssigns(pat, Step(pat, p, f, str[s]).value, str, s + 1, f);
      assert Text(str, s, f)[1..] == Text(str, s + 1, f);
      lens := [1] + lens;
    }
  }

  /** An assignment yields a match. */
  lemma {:induction false} AssignedMatches(pat: CString, p: nat, str: CString, s: nat, f: Flags, lens: seq<nat>)
    requires p <= |pat| && s <= |str| && Tokens(pat, p, f).Some?
    requires Assigned(pat, Tokens(pat, p, f).value, Text(str, s, f), lens, f)
    ensures Match(pat, p, str, s, f)
    decreases |pat| - p + |str| - s
  {
    hide Step, SetEnd, PatEnd;
    var text := Text(str, s, f);
    if At(pat, p) == '*' {
      if lens[0] == 0 {
        assert text[0..] == text;
        AssignedMatches(pat, p + 1, str, s, f, lens[1..]);
      } else {
        var lens' := lens[0 := lens[0] - 1];
        assert Text(str, s + 1, f)[lens'[0]..] == text[lens[0]..];
        assert lens'[1..] == lens[1..];
        AssignedMatches(pat, p, str, s + 1, f, lens');
      }
    } else {
      TokensEnd(pat, p, f);
      if Tokens(pat, p, f).value != [] {
        TokensStep(pat, p, f, text[0]);
        assert text[1..] == Text(str, s + 1, f);
        AssignedMatches(pat, Step(pat, p, f, text[0]).value, str, s + 1, f, lens[1..]);
      }
    }
  }

  /** A component matches exactly when some assignment of its text to the wildcards exists. */
  lemma MatchIsAssignment(pat: CString, p: nat, str: CString, s: nat, f: Flags)
    requires p <= |pat| && s <= |str|
    ensures Match(pat, p, str, s, f) <==>
            Tokens(pat, p, f).Some? && exists lens :: Assigned(pat, Tokens(pat, p, f).value, Text(str, s, f), lens, f)
  {
    if Match(pat, p, str, s, f) {
      var lens := MatchAssigns(pat, p, str, s, f);
    }
    if Tokens(pat, p, f).Some? && exists lens :: Assigned(pat, Tokens(pat, p, f).value, Text(str, s, f), lens, f) {
      var lens :| Assigned(pat, Tokens(pat, p, f).value, Text(str, s, f), lens, f);
      AssignedMatches(pat, p, str, s, f, lens);
    }
  }

  // ----- whole paths -----

  /** The starting positions of the components of the text from s on. */
  function Starts(str: CString, s: nat, f: Flags): (st: seq<nat>)
    requires s <= |str|
    ensures |st| >= 1 && st[0] == s
    ensures forall i {:trigger st[i]} :: 0 <= i < |st| ==> st[i] <= |str|
    decreases |str| - s
  {
    var e := TextEnd(str, s, f);
    if e < |str| then [s] + Starts(str, e + 1, f) else [s]
  }

  /** A component other than the last is followed by a slash and the next one. */
  lemma {:induction false} StartsNext(str: CString, s: nat, f: Flags, i: nat)
    requires s <= |str| && i < |Starts(str, s, f)|
    ensures var st := Starts(str, s, f);
            if i + 1 < |st| then TextEnd(str, st[i], f) < |str| && st[i + 1] == TextEnd(str, st[i], f) + 1
            else TextEnd(str, st[i], f) == |str|
    decreases i
  {
    if i > 0 {
      StartsNext(str, TextEnd(str, s, f) + 1, f, i - 1);
    }
  }

  /** The pattern continues with a double star and a slash. */
  predicate IsDeep(pat: CString, p: nat) {
    p + 3 <= |pat| && pat[p] == '*' && pat[p + 1] == '*' && pat[p + 2] == '/'
  }

  function SkipDeep(pat: CString, p: nat): (q: nat)
    requires p <= |pat|
    ensures p <= q <= |pat| && !IsDeep(pat, q) && (IsDeep(pat, p) ==> p < q)
    decreases |pat| - p
  {
    if IsDeep(pat, p) then SkipDeep(pat, p + 3) else p
  }

  /** A component of the pattern: where it starts, behind the double stars if there are some. */
  datatype Part = Part(deep: bool, at: nat)

  /** A pattern and a text to be matched component by component. */
  datatype Path = Path(pat: CString, str: CString, f: Flags) {

    function St(): (st: seq<nat>)
      ensures |st| >= 1 && forall i :: 0 <= i < |st| ==> st[i] <= |str|
    {
      Starts(str, 0, f)
    }

    /** Component i of the text is hidden: a double star does not skip it. */
    predicate Hidden(i: nat)
      requires i < |St()|
    {
      f.period && At(str, St()[i]) == '.'
    }

    predicate Component(p: nat, i: nat)
      requires p <= |pat| && i < |St()|
    {
      ComponentMatch(pat, p, str, St()[i], f)
    }

    /** The declarative match of a whole path: pattern from p, text from component i. */
    predicate Matches(p: nat, i: nat)
      requires p <= |pat| && i < |St()|
      decreases |St()| - i, 2
    {
      if IsDeep(pat, p) then Deep(SkipDeep(pat, p), i) else Plain(p, i)
    }

    /** A double star before p: it skips some number of components that are not hidden. */
    predicate Deep(p: nat, i: nat)
      requires p <= |pat| && i < |St()|
      decreases |St()| - i, 1
    {
      Plain(p, i) || (!Hidden(i) && i + 1 < |St()| && Deep(p, i + 1))
    }

    /** One component against one component, then the rest. */
    predicate Plain(p: nat, i: nat)
      requires p <= |pat| && i < |St()|
      decreases |St()| - i, 0
    {
      Component(p, i) &&
      var e := PatternEnd(pat, p, f);
      if e < |pat| && i + 1 < |St()| then Matches(e + 1, i + 1) else e == |pat| && i + 1 == |St()|
    }

    /** The pattern m components after b. */
    function After(b: nat, m: nat): (p: nat)
      requires b <= |pat|
      ensures p <= |pat|
    {
      if m == 0 then b
      else
        var e := PatternEnd(pat, After(b, m - 1), f);
        if e < |pat| then e + 1 else |pat|
    }

    /** The m components after b are plain and are followed by more pattern. */
    ghost predicate Run(b: nat, m: nat)
      requires b <= |pat|
    {
      forall j :: 0 <= j < m ==> !IsDeep(pat, After(b, j)) && PatternEnd(pat, After(b, j), f) < |pat|
    }

    /** The m components after b match the m components of the text from a on. */
    ghost predicate RunMatches(b: nat, m: nat, a: nat)
      requires b <= |pat|
    {
      a + m < |St()| && forall j :: 0 <= j < m ==> Component(After(b, j), a + j)
    }

    /** A match from component k goes through the run. */
    lemma {:induction false} RunForward(b: nat, m: nat, k: nat)
      requires b <= |pat| && k < |St()| && !IsDeep(pat, b) && Run(b, m) && Plain(b, k)
      ensures RunMatches(b, m, k)
      ensures m == 0 || Matches(After(b, m), k + m)
    {
      hide Starts, ComponentMatch, PatternEnd, SkipDeep, Hidden;
      if m > 0 {
        RunForward(b, m - 1, k);
        assert Plain(After(b, m - 1), k + m - 1);
      }
    }

    /** A matched run followed by a match is a match. */
    lemma {:induction false} RunBack(b: nat, m: nat, a: nat)
      requires b <= |pat| && !IsDeep(pat, b) && Run(b, m) && RunMatches(b, m, a)
      requires if m == 0 then Plain(b, a) else Matches(After(b, m), a + m)
      ensures Plain(b, a)
    {
      hide Starts, ComponentMatch, PatternEnd, SkipDeep, Hidden;
      if m > 0 {
        assert Component(After(b, m - 1), a + m - 1);
        assert Plain(After(b, m - 1), a + m - 1);
        RunBack(b, m - 1, a);
      }
    }

    /** A hidden component is matched only by a pattern that starts with a period, and such a
        pattern matches nothing else. */
    lemma LeadingPeriod(p: nat, i: nat, j: nat)
      requires f.pathname && p <= |pat| && i < |St()| && j < |St()|
      requires Component(p, i) && Component(p, j) && Hidden(i)
      ensures Hidden(j)
    {
    }

    /** What the components of the alternative match cover is never hidden: if the run matches at a
        and again at k > a, and nothing hidden lies in a..k, then nothing hidden lies in k..k+m. */
    lemma {:induction false} NothingHidden(b: nat, m: nat, a: nat, k: nat, j: nat)
      requires f.pathname && b <= |pat| && a < k && j < m
      requires RunMatches(b, m, a) && RunMatches(b, m, k)
      requires forall i :: a <= i < k ==> !Hidden(i)
      ensures !Hidden(k + j)
      decreases j
    {
      assert Component(After(b, j), a + j) && Component(After(b, j), k + j);
      if Hidden(k + j) {
        LeadingPeriod(After(b, j), k + j, a + j);
        if a + j >= k {
          NothingHidden(b, m, a, k, a + j - k);
        }
      }
    }

    /** A double star matches by skipping to some component. */
    lemma {:induction false} DeepWitness(p: nat, i: nat) returns (k: nat)
      requires p <= |pat| && i < |St()| && Deep(p, i)
      ensures i <= k < |St()| && Plain(p, k) && forall x :: i <= x < k ==> !Hidden(x)
      decreases |St()| - i
    {
      if Plain(p, i) {
        k := i;
      } else {
        k := DeepWitness(p, i + 1);
      }
    }

    lemma {:induction false} DeepEarlier(p: nat, i: nat, k: nat)
      requires p <= |pat| && i <= k < |St()| && Deep(p, k)
      requires forall x :: i <= x < k ==> !Hidden(x)
      ensures Deep(p, i)
      decreases k - i
    {
      if i < k {
        DeepEarlier(p, i + 1, k);
      }
    }

    /** Only the last double star needs to be remembered: once the run after one has matched and a
        new one is met, an earlier match of the run is never worse than a later one. */
    lemma ForgetDeep(b: nat, m: nat, a: nat)
      requires f.pathname && b <= |pat| && !IsDeep(pat, b) && Run(b, m) && RunMatches(b, m, a)
      requires m > 0 && IsDeep(pat, After(b, m))
      ensures Deep(b, a) == Matches(After(b, m), a + m)
    {
      hide Starts, ComponentMatch, PatternEnd, SkipDeep, Hidden, Run, Plain, Component, After, Deep;
      var q := SkipDeep(pat, After(b, m));
      if Deep(b, a) {
        var k := DeepWitness(b, a);
        RunForward(b, m, k);
        assert Deep(q, k + m);
        forall x | a + m <= x < k + m ensures !Hidden(x) {
          if x >= k {
            NothingHidden(b, m, a, k, x - k);
          }
        }
        DeepEarlier(q, a + m, k + m);
      }
      if Matches(After(b, m), a + m) {
        RunBack(b, m, a);
        DeepPlain(b, a);
      }
    }

    lemma DeepPlain(p: nat, i: nat)
      requires p <= |pat| && i < |St()| && Plain(p, i)
      ensures Deep(p, i)
    {
    }

    /** Falling back to the double star loses nothing when the rest does not match. */
    lemma BackToDeep(b: nat, m: nat, a: nat)
      requires b <= |pat| && !IsDeep(pat, b) && Run(b, m) && RunMatches(b, m, a)
      requires if m == 0 then !Plain(b, a) else !Matches(After(b, m), a + m)
      ensures !Plain(b, a)
      ensures Deep(b, a) == (!Hidden(a) && a + 1 < |St()| && Deep(b, a + 1))
    {
      if Plain(b, a) {
        RunForward(b, m, a);
      }
    }

    /** One more plain component matched in the run. */
    lemma RunExtend(b: nat, m: nat, a: nat)
      requires b <= |pat| && Run(b, m) && RunMatches(b, m, a) && a + m + 1 < |St()|
      requires !IsDeep(pat, After(b, m)) && PatternEnd(pat, After(b, m), f) < |pat|
      requires Component(After(b, m), a + m)
      ensures Run(b, m + 1) && RunMatches(b, m + 1, a)
      ensures After(b, m + 1) == PatternEnd(pat, After(b, m), f) + 1
    {
      hide Starts, ComponentMatch, PatternEnd, Component, IsDeep, St;
    }

    lemma MatchesUnfold(p: nat, i: nat)
      requires p <= |pat| && i < |St()|
      ensures Matches(p, i) == if IsDeep(pat, p) then Deep(SkipDeep(pat, p), i) else Plain(p, i)
    {
    }

    lemma PlainUnfold(p: nat, i: nat)
      requires p <= |pat| && i < |St()|
      ensures var e := PatternEnd(pat, p, f);
              Plain(p, i) == (Component(p, i) &&
                              if e < |pat| && i + 1 < |St()|
                                  then Matches(e + 1, i + 1) else e == |pat| && i + 1 == |St()|)
    {
    }

    lemma Next(i: nat)
      requires i < |St()|
      ensures if i + 1 < |St()| then TextEnd(str, St()[i], f) < |str| && St()[i + 1] == TextEnd(str, St()[i], f) + 1
              else TextEnd(str, St()[i], f) == |str|
    {
      StartsNext(str, 0, f, i);
    }

    /** What the loop of fnmatch knows: where a double star, if one was met, currently starts and
        how many components have matched since. */
    ghost predicate Progress(deep: bool, b: nat, a: nat, m: nat, p: nat, i: nat) {
      && p <= |pat| && i < |St()|
      && if deep then
           && b <= p && !IsDeep(pat, b) && i == a + m && a < |St()| && p == After(b, m)
           && Run(b, m) && RunMatches(b, m, a)
           && Matches(0, 0) == Deep(b, a)
         else Matches(0, 0) == Matches(p, i)
    }

    lemma ProgressDeep(deep: bool, b: nat, a: nat, m: nat, p: nat, i: nat)
      requires f.pathname && Progress(deep, b, a, m, p, i) && IsDeep(pat, p)
      ensures Progress(true, SkipDeep(pat, p), i, 0, SkipDeep(pat, p), i)
    {
      hide Starts, ComponentMatch, PatternEnd, Hidden, Plain, Component, Deep, Matches;
      MatchesUnfold(p, i);
      if deep {
        assert m > 0;
        ForgetDeep(b, m, a);
      }
    }

    lemma ProgressStep(deep: bool, b: nat, a: nat, m: nat, p: nat, i: nat)
      requires Progress(deep, b, a, m, p, i) && !IsDeep(pat, p) && Component(p, i)
      requires PatternEnd(pat, p, f) < |pat| && i + 1 < |St()|
      ensures Progress(deep, b, a, m + 1, PatternEnd(pat, p, f) + 1, i + 1)
    {
      hide Starts, ComponentMatch, PatternEnd, Hidden, Plain, Component, Deep, Matches, Run, RunMatches, After;
      MatchesUnfold(p, i);
      PlainUnfold(p, i);
      if deep {
        RunExtend(b, m, a);
        PatternEndAfter(p);
      }
    }

    lemma PatternEndAfter(p: nat)
      requires p <= |pat|
      ensures PatternEnd(pat, p, f) >= p
    {
    }

    lemma ProgressDone(deep: bool, b: nat, a: nat, m: nat, p: nat, i: nat)
      requires Progress(deep, b, a, m, p, i) && !IsDeep(pat, p) && Component(p, i)
      requires PatternEnd(pat, p, f) == |pat| && i + 1 == |St()|
      ensures Matches(0, 0)
    {
      hide Starts, ComponentMatch, PatternEnd, Hidden, Plain, Component, Deep, Matches, Run, RunMatches;
      MatchesUnfold(p, i);
      PlainUnfold(p, i);
      if deep {
        RunBack(b, m, a);
        DeepPlain(b, a);
      }
    }

    lemma ProgressFailed(deep: bool, b: nat, a: nat, m: nat, p: nat, i: nat)
      requires Progress(deep, b, a, m, p, i) && !IsDeep(pat, p) && !Plain(p, i)
      ensures !deep ==> !Matches(0, 0)
      ensures deep ==> if !Hidden(a) && a + 1 < |St()| then Progress(true, b, a + 1, 0, b, a + 1) else !Matches(0, 0)
    {
      hide Starts, ComponentMatch, PatternEnd, Hidden, Plain, Component, Deep, Matches;
      MatchesUnfold(p, i);
      if deep {
        BackToDeep(b, m, a);
      }
    }

    // ----- what a match of a whole path is -----

    /** The pattern's components from p on: whether a double star stands in front, and where each starts. */
    function Parts(p: nat): (r: seq<Part>)
      requires p <= |pat|
      ensures |r| >= 1
      decreases |pat| - p
    {
      var at := SkipDeep(pat, p);
      var e := PatternEnd(pat, at, f);
      [Part(IsDeep(pat, p), at)] + if e < |pat| then Parts(e + 1) else []
    }

    /** Each component of the pattern against one of the text from i on, none left over: in front of each
        skips says how many the double star in front of it skips, of which none is hidden. */
    ghost predicate Laid(parts: seq<Part>, i: nat, skips: seq<nat>)
      requires i < |St()|
      decreases |parts|
    {
      && parts != [] && |skips| == |parts| && parts[0].at <= |pat|
      && i + skips[0] < |St()| && (skips[0] > 0 ==> parts[0].deep)
      && (forall x :: i <= x < i + skips[0] ==> !Hidden(x))
      && Component(parts[0].at, i + skips[0])
      && var next := i + skips[0] + 1;
         if |parts| == 1 then next == |St()| else next < |St()| && Laid(parts[1..], next, skips[1..])
    }

    lemma PartsUnfold(p: nat)
      requires p <= |pat|
      ensures var at := SkipDeep(pat, p);
              var e := PatternEnd(pat, at, f);
              Parts(p) == [Part(IsDeep(pat, p), at)] + if e < |pat| then Parts(e + 1) else []
    {
      hide PatternEnd, SkipDeep, IsDeep;
    }

    lemma {:induction false} MatchLays(p: nat, i: nat) returns (skips: seq<nat>)
      requires p <= |pat| && i < |St()| && Matches(p, i)
      ensures Laid(Parts(p), i, skips)
      decreases |St()| - i
    {
      hide Starts, ComponentMatch, PatternEnd, IsDeep, SkipDeep, Matches, Deep, Plain, Component, St, Parts;
      MatchesUnfold(p, i);
      PartsUnfold(p);
      var at := SkipDeep(pat, p);
      var k := i;
      if IsDeep(pat, p) { k := DeepWitness(at, i); } else { NotDeep(p); }
      PlainUnfold(at, k);
      var e := PatternEnd(pat, at, f);
      if e < |pat| {
        var rest := MatchLays(e + 1, k + 1);
        skips := [k - i] + rest;
        assert skips[1..] == rest && Parts(p)[1..] == Parts(e + 1);
      } else {
        skips := [k - i];
      }
    }

    lemma NotDeep(p: nat)
      requires p <= |pat| && !IsDeep(pat, p)
      ensures SkipDeep(pat, p) == p
    {
    }

    lemma {:induction false} LaidMatches(p: nat, i: nat, skips: seq<nat>)
      requires p <= |pat| && i < |St()| && Laid(Parts(p), i, skips)
      ensures Matches(p, i)
      decreases |St()| - i
    {
      hide Starts, ComponentMatch, PatternEnd, IsDeep, SkipDeep, Matches, Deep, Plain, Component, St, Parts;
      PartsUnfold(p);
      var at, k := SkipDeep(pat, p), i + skips[0];
      var e := PatternEnd(pat, at, f);
      if e < |pat| {
        assert Parts(p)[1..] == Parts(e + 1);
        LaidMatches(e + 1, k + 1, skips[1..]);
      }
      PlainUnfold(at, k);
      assert Plain(at, k);
      MatchesUnfold(p, i);
      if IsDeep(pat, p) {
        DeepPlain(at, k);
        DeepEarlier(at, i, k);
      } else {
        NotDeep(p);
      }
    }

    /** A whole path matches exactly when the components of the pattern can be laid on those of the text,
        double stars skipping what is between. */
    lemma MatchIsLaying(p: nat, i: nat)
      requires p <= |pat| && i < |St()|
      ensures Matches(p, i) <==> exists skips :: Laid(Parts(p), i, skips)
    {
      hide Matches, Laid, Parts, St;
      if Matches(p, i) {
        var skips := MatchLays(p, i);
      }
      if skips :| Laid(Parts(p), i, skips) {
        LaidMatches(p, i, skips);
      }
    }
  }

  /** Whether a pattern matches a text. */
  predicate PatternMatches(pat: CString, str: CString, f: Flags) {
    if f.pathname then Path(pat, str, f).Matches(0, 0) else ComponentMatch(pat, 0, str, 0, f)
  }

  /** fnmatch: zero exactly when the pattern matches; both loops terminate. */
  method Fnmatch(pat: CString, str: CString, f: Flags) returns (matched: bool)
    ensures matched == PatternMatches(pat, str, f)
  {
    hide Starts, ComponentMatch, PatternEnd, Match, TextEnd, Path.Plain, Path.Deep, Path.Matches, Path.Progress;
    var p: nat, s: nat := 0, 0;
    var pe: nat, se: nat;
    if !f.pathname {
      matched, pe, se := FnmatchHelper(pat, p, str, s, f);
      return;
    }
    ghost var path := Path(pat, str, f);
    var deep, ptmp: nat, stmp: nat := false, 0, 0;
    ghost var a: nat, m: nat, i: nat := 0, 0, 0;
    ProgressStart(path);
    while true
      invariant path.Progress(deep, ptmp, a, m, p, i)
      invariant p <= |pat| && ptmp <= p && i < |path.St()| && s == path.St()[i]
      invariant deep ==> a <= i && stmp == path.St()[a]
      invariant !deep ==> ptmp == 0 && a == 0
      decreases |pat| - ptmp, |path.St()| - a, |path.St()| - i
    {
      if IsDeep(pat, p) {
        path.ProgressDeep(deep, ptmp, a, m, p, i);
        p := SkipDoubleStars(pat, p);
        deep, ptmp, stmp := true, p, s;
        a, m := i, 0;
      }
      var ok;
      ok, pe, se := FnmatchHelper(pat, p, str, s, f);
      path.Next(i);
      path.PlainUnfold(p, i);
      if ok {
        se := SkipToSlash(str, s, se, f);
        if pe < |pat| && se < |str| {
          path.ProgressStep(deep, ptmp, a, m, p, i);
          p, s := pe + 1, se + 1;
          m, i := m + 1, i + 1;
          continue;
        }
        if pe == |pat| && se == |str| {
          path.ProgressDone(deep, ptmp, a, m, p, i);
          return true;
        }
      }
      // failed: try next recursion
      path.ProgressFailed(deep, ptmp, a, m, p, i);
      if deep && !(f.period && At(str, stmp) == '.') {
        path.Next(a);
        stmp := SkipToSlash(str, stmp, stmp, f);
        if stmp < |str| {
          p := ptmp;
          stmp := stmp + 1;
          s := stmp;
          a, m, i := a + 1, 0, a + 1;
          continue;
        }
      }
      return false;
    }
  }

  lemma ProgressStart(path: Path)
    ensures path.Progress(false, 0, 0, 0, 0, 0)
  {
  }

  /** The double star with its slash and every one right behind it are skipped. */
  method SkipDoubleStars(pat: CString, p0: nat) returns (p: nat)
    requires IsDeep(pat, p0)
    ensures p == SkipDeep(pat, p0)
  {
    p := p0 + 3;
    while IsDeep(pat, p)
      invariant p0 < p <= |pat| && SkipDeep(pat, p0) == SkipDeep(pat, p)
      decreases |pat| - p
    {
      p := p + 3;
    }
  }

  /** Moves s on to the next slash or the end. */
  method SkipToSlash(str: CString, s0: nat, s1: nat, f: Flags) returns (s: nat)
    requires f.pathname && s0 <= s1 <= |str| && s1 <= TextEnd(str, s0, f)
    ensures s == TextEnd(str, s0, f)
  {
    TextEndSame(str, s0, s1, f);
    s := s1;
    while s < |str| && str[s] != '/'
      invariant s1 <= s <= |str| && TextEnd(str, s, f) == TextEnd(str, s0, f)
    {
      s := s + 1;
    }
  }
}
