/** Bracket expressions as they are written: which characters a set takes. */
module WrittenSets {
  import opened Options
  import opened Fnmatch

  /** A character, with or without a backslash in front. */
  datatype Mark = Plain(c: char) | Escaped(c: char)

  /** What a set lists: a character, or two with a minus between them. */
  datatype Entry = Single(x: Mark) | Range(lo: Mark, hi: Mark)

  function MarkText(x: Mark): (t: string)
    ensures |t| >= 1
  {
    if x.Plain? then [x.c] else ['\\', x.c]
  }

  function EntryText(e: Entry): (t: string)
    ensures |t| >= 1
  {
    match e
    case Single(x) => MarkText(x)
    case Range(lo, hi) => MarkText(lo) + ['-'] + MarkText(hi)
  }

  function SetText(items: seq<Entry>): string {
    if items == [] then "" else EntryText(items[0]) + SetText(items[1..])
  }

  /** The mark can stand in a set: a plain one is neither the end of the set nor a backslash that escapes. */
  predicate FitMark(x: Mark, f: Flags) {
    x.c != '\0' && if x.Plain? then x.c != ']' && !(f.escape && x.c == '\\') else f.escape
  }

  function Lead(e: Entry): Mark {
    if e.Single? then e.x else e.lo
  }

  /** The entries are read as they are listed: a minus behind a single character stands at the end. */
  predicate FitSet(items: seq<Entry>, f: Flags) {
    items != [] ==>
      && (match items[0]
          case Single(x) => FitMark(x, f)
          case Range(lo, hi) => FitMark(lo, f) && FitMark(hi, f))
      && (items[0].Single? && |items| > 1 && Lead(items[1]) == Plain('-') ==> items[1..] == [Single(Plain('-'))])
      && FitSet(items[1..], f)
  }

  /** The characters an entry stands for; the ends of a range count even when reversed. */
  predicate Takes(e: Entry, c: char) {
    match e
    case Single(x) => c == x.c
    case Range(lo, hi) => c == lo.c || c == hi.c || (lo.c <= c && c <= hi.c)
  }

  predicate Lists(items: seq<Entry>, c: char) {
    exists k :: 0 <= k < |items| && Takes(items[k], c)
  }

  /** The text t stands in the pattern from p on. */
  predicate Stands(pat: CString, p: nat, t: string) {
    p + |t| <= |pat| && pat[p..p + |t|] == t
  }

  lemma StandsSplit(pat: CString, p: nat, a: string, b: string)
    ensures Stands(pat, p, a + b) <==> Stands(pat, p, a) && Stands(pat, p + |a|, b)
  {
    if Stands(pat, p, a + b) {
      var t := pat[p..p + |a + b|];
      assert pat[p..p + |a|] == t[..|a|] && pat[p + |a|..p + |a| + |b|] == t[|a|..];
    }
    if Stands(pat, p, a) && Stands(pat, p + |a|, b) {
      assert pat[p..p + |a + b|] == pat[p..p + |a|] + pat[p + |a|..p + |a| + |b|];
    }
  }

  lemma StandsOne(pat: CString, p: nat, c: char)
    requires c != '\0'
    ensures Stands(pat, p, [c]) <==> At(pat, p) == c
  {
    if p < |pat| { assert pat[p..p + 1] == [pat[p]]; }
  }

  // ----- reading a mark and an entry -----

  lemma MarkReads(pat: CString, p: nat, f: Flags, x: Mark)
    requires Stands(pat, p, MarkText(x)) && FitMark(x, f)
    ensures var q := Unescape(pat, p, f);
            q < |pat| && pat[q] == x.c && q + 1 == p + |MarkText(x)| && At(pat, p) != ']'
    ensures At(pat, p) == if x.Plain? then x.c else '\\'
  {
    if x.Plain? {
      StandsOne(pat, p, x.c);
    } else {
      StandsSplit(pat, p, ['\\'], [x.c]);
      StandsOne(pat, p, '\\');
      StandsOne(pat, p + 1, x.c);
    }
  }

  /** The mark at p. */
  function MarkAt(pat: CString, p: nat, f: Flags): Mark
    requires Unescape(pat, p, f) < |pat|
  {
    if Unescape(pat, p, f) == p then Plain(pat[p]) else Escaped(pat[p + 1])
  }

  lemma MarkStands(pat: CString, p: nat, f: Flags)
    requires Unescape(pat, p, f) < |pat| && At(pat, p) != ']'
    ensures var x := MarkAt(pat, p, f);
            && Stands(pat, p, MarkText(x)) && FitMark(x, f) && x.c == pat[Unescape(pat, p, f)]
            && p + |MarkText(x)| == Unescape(pat, p, f) + 1
  {
    var x := MarkAt(pat, p, f);
    if x.Escaped? { assert pat[p..p + 2] == ['\\', x.c]; } else { assert pat[p..p + 1] == [x.c]; }
  }

  lemma EntryReads(pat: CString, p: nat, f: Flags, e: Entry)
    requires Stands(pat, p, EntryText(e)) && FitSet([e], f)
    requires var q := p + |EntryText(e)|; e.Single? ==> !(At(pat, q) == '-' && At(pat, q + 1) != ']')
    ensures At(pat, p) != ']'
    ensures NextItem(pat, p, f) ==
            Item(Lead(e).c, if e.Single? then e.x.c else e.hi.c, p + |EntryText(e)|)
  {
    hide Unescape;
    match e
    case Single(x) =>
      MarkReads(pat, p, f, x);
    case Range(lo, hi) =>
      var q := p + |MarkText(lo)|;
      StandsSplit(pat, p, MarkText(lo) + ['-'], MarkText(hi));
      StandsSplit(pat, p, MarkText(lo), ['-']);
      StandsOne(pat, q, '-');
      MarkReads(pat, p, f, lo);
      MarkReads(pat, q + 1, f, hi);
  }

  /** A written set is read as it is written. */
  lemma {:induction false} SetReads(pat: CString, p: nat, f: Flags, items: seq<Entry>, c: char)
    requires FitSet(items, f) && Stands(pat, p, SetText(items)) && At(pat, p + |SetText(items)|) == ']'
    ensures SetEnd(pat, p, f) == Some(p + |SetText(items)|)
    ensures InSet(pat, p, f, c) <==> Lists(items, c)
    decreases |items|
  {
    hide NextItem, SetEnd, InSet, EntryText;
    SetUnfold(pat, p, f, c);
    if items != [] {
      var e, rest := items[0], items[1..];
      var q := p + |EntryText(e)|;
      StandsSplit(pat, p, EntryText(e), SetText(rest));
      NotRange(pat, q, f, e, rest);
      EntryReads(pat, p, f, e);
      SetReads(pat, q, f, rest, c);
      ListsFirst(items, c);
    }
  }

  lemma ListsFirst(items: seq<Entry>, c: char)
    requires items != []
    ensures Lists(items, c) <==> Takes(items[0], c) || Lists(items[1..], c)
  {
    if k :| 0 <= k < |items| && Takes(items[k], c) {
      if k > 0 { assert items[1..][k - 1] == items[k]; }
    }
    if k :| 0 <= k < |items[1..]| && Takes(items[1..][k], c) { assert items[k + 1] == items[1..][k]; }
  }

  /** Behind a single character no minus begins a range. */
  lemma NotRange(pat: CString, q: nat, f: Flags, e: Entry, rest: seq<Entry>)
    requires FitSet([e] + rest, f) && Stands(pat, q, SetText(rest)) && At(pat, q + |SetText(rest)|) == ']'
    ensures FitSet([e], f)
    ensures e.Single? ==> !(At(pat, q) == '-' && At(pat, q + 1) != ']')
  {
    var items := [e] + rest;
    assert items[1..] == rest;
    if e.Single? && rest != [] {
      EntryStarts(pat, q, f, rest);
      if Lead(rest[0]) == Plain('-') {
        assert rest == [Single(Plain('-'))];
        assert SetText(rest[1..]) == "";
      }
    }
  }

  lemma EntryStarts(pat: CString, q: nat, f: Flags, rest: seq<Entry>)
    requires rest != [] && FitSet(rest, f) && Stands(pat, q, SetText(rest))
    ensures At(pat, q) == '-' ==> Lead(rest[0]) == Plain('-')
  {
    hide Unescape;
    var e := rest[0];
    StandsSplit(pat, q, EntryText(e), SetText(rest[1..]));
    if e.Range? {
      StandsSplit(pat, q, MarkText(e.lo) + ['-'], MarkText(e.hi));
      StandsSplit(pat, q, MarkText(e.lo), ['-']);
    }
    MarkReads(pat, q, f, Lead(e));
  }

  /** What is read as a set is written as one. */
  lemma {:induction false} SetSpelled(pat: CString, p: nat, f: Flags) returns (items: seq<Entry>)
    requires SetEnd(pat, p, f).Some?
    ensures FitSet(items, f) && Stands(pat, p, SetText(items)) && SetEnd(pat, p, f) == Some(p + |SetText(items)|)
    decreases |pat| - p
  {
    hide NextItem, SetEnd, InSet, EntryText;
    SetUnfold(pat, p, f, 'x');
    if At(pat, p) == ']' {
      items := [];
    } else {
      var e, q := EntrySpelled(pat, p, f);
      var rest := SetSpelled(pat, q, f);
      items := [e] + rest;
      assert items[1..] == rest;
      StandsSplit(pat, p, EntryText(e), SetText(rest));
      if e.Single? && rest != [] && Lead(rest[0]) == Plain('-') { MinusLast(pat, q, f, rest); }
    }
  }

  lemma EntrySpelled(pat: CString, p: nat, f: Flags) returns (e: Entry, q: nat)
    requires At(pat, p) != ']' && NextItem(pat, p, f).Item?
    ensures q == NextItem(pat, p, f).next == p + |EntryText(e)| && Stands(pat, p, EntryText(e)) && FitSet([e], f)
    ensures e.Single? ==> !(At(pat, q) == '-' && At(pat, q + 1) != ']')
  {
    hide Unescape, MarkAt, MarkText, FitMark;
    var t1 := Unescape(pat, p, f);
    MarkStands(pat, p, f);
    if At(pat, t1 + 1) == '-' && At(pat, t1 + 2) != ']' {
      MarkStands(pat, t1 + 2, f);
      e := Range(MarkAt(pat, p, f), MarkAt(pat, t1 + 2, f));
      StandsOne(pat, t1 + 1, '-');
      StandsSplit(pat, p, MarkText(e.lo), ['-']);
      StandsSplit(pat, p, MarkText(e.lo) + ['-'], MarkText(e.hi));
    } else {
      e := Single(MarkAt(pat, p, f));
    }
    q := p + |EntryText(e)|;
  }

  /** A set that lists something does not begin with its end. */
  lemma NotClosed(pat: CString, p: nat, f: Flags, items: seq<Entry>)
    requires items != [] && FitSet(items, f) && Stands(pat, p, SetText(items))
    ensures At(pat, p) != ']'
  {
    hide Stands;
    var e := items[0];
    StandsSplit(pat, p, EntryText(e), SetText(items[1..]));
    if e.Range? {
      StandsSplit(pat, p, MarkText(e.lo) + ['-'], MarkText(e.hi));
      StandsSplit(pat, p, MarkText(e.lo), ['-']);
    }
    MarkReads(pat, p, f, Lead(e));
  }

  lemma MinusLast(pat: CString, q: nat, f: Flags, rest: seq<Entry>)
    requires rest != [] && FitSet(rest, f) && Stands(pat, q, SetText(rest)) && Lead(rest[0]) == Plain('-')
    requires !(At(pat, q) == '-' && At(pat, q + 1) != ']')
    ensures rest == [Single(Plain('-'))]
  {
    hide Stands;
    var e := rest[0];
    StandsSplit(pat, q, EntryText(e), SetText(rest[1..]));
    StandsOne(pat, q, '-');
    if e.Range? {
      StandsSplit(pat, q, MarkText(e.lo) + ['-'], MarkText(e.hi));
      StandsSplit(pat, q, MarkText(e.lo), ['-']);
      StandsOne(pat, q + 1, '-');
    } else if rest[1..] != [] {
      NotClosed(pat, q + 1, f, rest[1..]);
    } else {
      assert rest == [e];
    }
  }

  // ----- the bracket -----

  /** A set without its opening bracket, from p up to behind the closing one: the sign of negation if there is one,
      and the entries. */
  predicate Written(pat: CString, p: nat, end: nat, f: Flags, negation: string, items: seq<Entry>) {
    && negation in ["", "!", "^"] && FitSet(items, f)
    && Stands(pat, p, negation + SetText(items) + "]") && end == p + |negation| + |SetText(items)| + 1
    && (negation == "" ==> At(pat, p) !in "!^")
  }

  /** The bracket is left with a match behind its end exactly when it is closed there and the character is listed,
      or is not if the set is negated. */
  lemma BracketExactly(pat: CString, p: nat, f: Flags, c: char, end: nat)
    requires p <= |pat|
    ensures BracketMatch(pat, p, f, c) == Some(end) <==>
            exists negation, items ::
              Written(pat, p, end, f, negation, items) && (Lists(items, c) <==> negation == "")
  {
    hide SetEnd, InSet, Lists, FitSet;
    if negation, items :|
      Written(pat, p, end, f, negation, items) && (Lists(items, c) <==> negation == "") {
      WrittenReads(pat, p, end, f, negation, items, c);
    }
    if BracketMatch(pat, p, f, c).Some? {
      var negation, items := BracketSpelled(pat, p, f, c);
      WrittenReads(pat, p, BracketMatch(pat, p, f, c).value, f, negation, items, c);
      assert Written(pat, p, BracketMatch(pat, p, f, c).value, f, negation, items);
    }
  }

  lemma WrittenReads(pat: CString, p: nat, end: nat, f: Flags, negation: string, items: seq<Entry>, c: char)
    requires Written(pat, p, end, f, negation, items)
    ensures BracketMatch(pat, p, f, c) == if Lists(items, c) <==> negation == "" then Some(end) else None
    ensures SetEnd(pat, p + |negation|, f) == Some(end - 1)
    ensures negation != "" <==> At(pat, p) == '!' || At(pat, p) == '^'
  {
    hide SetEnd, InSet, Lists, FitSet, Stands, SetText;
    var q := p + |negation|;
    StandsSplit(pat, p, negation + SetText(items), "]");
    StandsSplit(pat, p, negation, SetText(items));
    StandsOne(pat, q + |SetText(items)|, ']');
    if negation != "" {
      assert negation == [negation[0]];
      StandsOne(pat, p, negation[0]);
    }
    SetReads(pat, q, f, items, c);
  }

  lemma BracketSpelled(pat: CString, p: nat, f: Flags, c: char) returns (negation: string, items: seq<Entry>)
    requires SetEnd(pat, if At(pat, p) == '!' || At(pat, p) == '^' then p + 1 else p, f).Some?
    ensures var q := if At(pat, p) == '!' || At(pat, p) == '^' then p + 1 else p;
            Written(pat, p, SetEnd(pat, q, f).value + 1, f, negation, items)
  {
    hide InSet, FitSet, SetEnd, Stands, SetText;
    var q := if At(pat, p) == '!' || At(pat, p) == '^' then p + 1 else p;
    items := SetSpelled(pat, q, f);
    SetEndsAt(pat, q, f);
    StandsOne(pat, q + |SetText(items)|, ']');
    if q == p {
      negation := "";
      StandsNone(pat, p, items);
    } else {
      negation := [pat[p]];
      StandsOne(pat, p, pat[p]);
    }
    StandsSplit(pat, p, negation, SetText(items));
    StandsSplit(pat, p, negation + SetText(items), "]");
  }

  lemma StandsNone(pat: CString, p: nat, items: seq<Entry>)
    requires Stands(pat, p, SetText(items))
    ensures Stands(pat, p, "")
  {
  }

  lemma {:induction false} SetEndsAt(pat: CString, p: nat, f: Flags)
    requires SetEnd(pat, p, f).Some?
    ensures At(pat, SetEnd(pat, p, f).value) == ']'
    decreases |pat| - p
  {
    hide NextItem, InSet;
    if At(pat, p) != ']' { SetEndsAt(pat, NextItem(pat, p, f).next, f); }
  }
}
