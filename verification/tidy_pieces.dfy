/** Pieces of an element list, and what a list put together from them has if they have it: the parts of
    being neat that can be seen piece by piece. */
module TidyPieces {
  import opened Options
  import opened Lowering
  import opened PeepholeStep
  import opened NeatLists

  /** Something that is neither a label nor a jump. */
  predicate Solid(s: Code, q: nat) {
    q < |s| && !s[q].L? && !IsJump(s, q)
  }

  ghost predicate HasSolid(s: Code) {
    exists q: nat :: Solid(s, q)
  }

  /** Label l is placed between p and o. */
  ghost predicate Within(s: Code, p: int, o: nat, l: nat) {
    exists r: nat :: p < r < o && r < |s| && s[r] == L(l)
  }

  /** Label l has something other than a label or a jump right behind it. */
  ghost predicate FirmIn(s: Code, l: nat) {
    exists r: nat :: Solid(s, r + 1) && s[r] == L(l)
  }

  predicate Refers(s: Code, r: nat, l: nat) {
    r < |s| && s[r].I? && Target(s[r].insn) == Some(l)
  }

  function BranchTarget(s: Code, p: nat): nat
    requires IsBranch(s, p)
  {
    Target(s[p].insn).value
  }

  // ----- what a piece has -----

  /** A jump that is first or has a label in front. */
  predicate Reached(s: Code, q: nat) {
    IsJump(s, q) && (q == 0 || s[q - 1].L?)
  }

  /** It leads further on in the piece, to something solid, or to one of the labels ahead. */
  ghost predicate Leads(s: Code, q: nat, ahead: set<nat>)
    requires IsJump(s, q)
  {
    Within(s, q, |s|, s[q].insn.l) || FirmIn(s, s[q].insn.l) || s[q].insn.l in ahead
  }

  ghost predicate LeadsAhead(s: Code, ahead: set<nat>) {
    forall q: nat :: Reached(s, q) ==> Leads(s, q, ahead)
  }

  ghost predicate PocketsIn(s: Code) {
    forall p: nat, o: nat :: IsBranch(s, p) && p < o && IsJump(s, o) && Open(s, p, o) ==>
      o == p + 1 || Within(s, p, o, BranchTarget(s, p)) || (o == p + 3 && Paired(s, p + 1))
  }

  /** Every label of a paired jump is one of own. */
  ghost predicate PairsIn(s: Code, own: set<nat>) {
    forall q: nat :: Paired(s, q) ==> s[q].insn.l in own
  }

  /** Every label an instruction leads to is one of refs. */
  ghost predicate RefsIn(s: Code, refs: set<nat>) {
    forall q: nat :: q < |s| && s[q].I? && Target(s[q].insn).Some? ==> Target(s[q].insn).value in refs
  }

  ghost predicate Piece(s: Code, ahead: set<nat>, own: set<nat>, refs: set<nat>) {
    Spaced(s) && LeadsAhead(s, ahead) && PocketsIn(s) && Owned(s) && PairsIn(s, own) && RefsIn(s, refs)
  }

  /** A branch with only labels and jumps behind it leads into them. */
  ghost predicate Closed(s: Code) {
    forall p: nat :: IsBranch(s, p) && Open(s, p, |s|) ==> Within(s, p, |s|, BranchTarget(s, p))
  }

  /** Or it is last, or the piece ends in a paired jump and its label behind it. */
  ghost predicate Tail(s: Code) {
    forall p: nat :: IsBranch(s, p) && Open(s, p, |s|) ==>
      Within(s, p, |s|, BranchTarget(s, p)) || |s| == p + 1 || (|s| == p + 3 && Paired(s, p + 1))
  }

  /** Of the jumps with only labels and jumps in front the piece has none but its first element. */
  ghost predicate Starts(s: Code) {
    forall o: nat :: IsJump(s, o) && Open(s, -1, o) ==> o == 0
  }

  // ----- putting pieces together -----

  lemma JoinAt(a: Code, b: Code, q: nat)
    ensures q < |a| ==> (a + b)[q] == a[q]
    ensures |a| <= q < |a + b| ==> (a + b)[q] == b[q - |a|]
    ensures IsJump(a + b, q) <==> IsJump(a, q) || (|a| <= q && IsJump(b, q - |a|))
    ensures IsBranch(a + b, q) <==> IsBranch(a, q) || (|a| <= q && IsBranch(b, q - |a|))
    ensures Solid(a + b, q) <==> Solid(a, q) || (|a| <= q && Solid(b, q - |a|))
  {
  }

  lemma JoinWithin(a: Code, b: Code, p: int, o: nat, l: nat)
    ensures o <= |a| && Within(a, p, o, l) ==> Within(a + b, p, o, l)
    ensures p >= |a| && o >= |a| && Within(b, p - |a|, o - |a|, l) ==> Within(a + b, p, o, l)
  {
    if o <= |a| && Within(a, p, o, l) {
      var r: nat :| p < r < o && r < |a| && a[r] == L(l);
      assert (a + b)[r] == L(l);
    }
    if p >= |a| && o >= |a| && Within(b, p - |a|, o - |a|, l) {
      var r: nat :| p - |a| < r < o - |a| && r < |b| && b[r] == L(l);
      assert (a + b)[r + |a|] == L(l);
    }
  }

  lemma WithinWider(s: Code, p: int, o: nat, p': int, o': nat, l: nat)
    requires Within(s, p, o, l) && p' <= p && o <= o'
    ensures Within(s, p', o', l)
  {
    var r: nat :| p < r < o && r < |s| && s[r] == L(l);
  }

  lemma JoinSpaced(a: Code, b: Code)
    requires Spaced(a) && Spaced(b) && !(a != [] && IsJump(a, |a| - 1) && IsJump(b, 0))
    ensures Spaced(a + b)
  {
    forall q: nat | IsJump(a + b, q) ensures !IsJump(a + b, q + 1) {
      JoinAt(a, b, q);
      JoinAt(a, b, q + 1);
    }
  }

  lemma JoinAhead(a: Code, ahead: set<nat>, b: Code, ahead': set<nat>)
    requires LeadsAhead(a, ahead) && LeadsAhead(b, ahead')
    requires forall l :: l in ahead ==> l in ahead' || Within(b, -1, |b|, l)
    ensures LeadsAhead(a + b, ahead')
  {
    var s := a + b;
    hide Within, FirmIn;
    forall q: nat | Reached(s, q) ensures Leads(s, q, ahead') {
      JoinAt(a, b, q);
      if q > 0 { JoinAt(a, b, q - 1); }
      var l := s[q].insn.l;
      JoinFirm(a, b, l);
      if q < |a| {
        assert Reached(a, q);
        WithinLeft(a, b, q, l);
      } else {
        assert Reached(b, q - |a|);
        JoinWithin(a, b, q, |s|, l);
      }
    }
  }

  lemma WithinLeft(a: Code, b: Code, q: nat, l: nat)
    requires q < |a|
    ensures Within(a, q, |a|, l) || Within(b, -1, |b|, l) ==> Within(a + b, q, |a + b|, l)
  {
    JoinWithin(a, b, q, |a|, l);
    if Within(a, q, |a|, l) {
      WithinWider(a + b, q, |a|, q, |a + b|, l);
    } else if Within(b, -1, |b|, l) {
      WithinRight(a, b, l);
      WithinWider(a + b, |a| - 1, |a + b|, q, |a + b|, l);
    }
  }

  lemma WithinRight(a: Code, b: Code, l: nat)
    requires Within(b, -1, |b|, l)
    ensures Within(a + b, |a| - 1, |a + b|, l)
  {
    var r: nat :| r < |b| && b[r] == L(l);
    assert (a + b)[r + |a|] == L(l);
  }

  lemma JoinFirm(a: Code, b: Code, l: nat)
    ensures FirmIn(a, l) || FirmIn(b, l) ==> FirmIn(a + b, l)
  {
    if FirmIn(a, l) {
      var r: nat :| Solid(a, r + 1) && a[r] == L(l);
      assert Solid(a + b, r + 1) && (a + b)[r] == L(l);
    }
    if FirmIn(b, l) {
      var r: nat :| Solid(b, r + 1) && b[r] == L(l);
      assert Solid(a + b, r + |a| + 1) && (a + b)[r + |a|] == L(l);
    }
  }

  lemma OpenLeft(a: Code, b: Code, p: nat, o: nat)
    requires Open(a + b, p, o) && p < |a|
    ensures o <= |a| ==> Open(a, p, o)
    ensures o > |a| ==> Open(a, p, |a|) && Open(b, -1, o - |a|)
  {
    var s := a + b;
    forall j | p < j < o ensures j < |a| ==> a[j].L? || IsJump(a, j) { JoinAt(a, b, j); }
    if o > |a| {
      forall j | 0 <= j < o - |a| ensures b[j].L? || IsJump(b, j) {
        JoinAt(a, b, j + |a|);
        assert s[j + |a|].L? || IsJump(s, j + |a|);
      }
    }
  }

  lemma OpenRight(a: Code, b: Code, p: nat, o: nat)
    requires Open(a + b, p, o) && |a| <= p && |a| <= o
    ensures Open(b, p - |a|, o - |a|)
  {
    var s := a + b;
    forall j | p - |a| < j < o - |a| ensures b[j].L? || IsJump(b, j) {
      JoinAt(a, b, j + |a|);
      assert s[j + |a|].L? || IsJump(s, j + |a|);
    }
  }

  lemma JoinPaired(a: Code, b: Code, q: nat)
    ensures Paired(a, q) ==> Paired(a + b, q)
    ensures q >= |a| && Paired(b, q - |a|) ==> Paired(a + b, q)
  {
  }

  lemma JoinPockets(a: Code, b: Code)
    requires PocketsIn(a) && PocketsIn(b) && (Closed(a) || (Tail(a) && Starts(b)))
    ensures PocketsIn(a + b)
  {
    var s := a + b;
    hide Within, Paired, Open;
    forall p: nat, o: nat | IsBranch(s, p) && p < o && IsJump(s, o) && Open(s, p, o)
      ensures o == p + 1 || Within(s, p, o, BranchTarget(s, p)) || (o == p + 3 && Paired(s, p + 1))
    {
      JoinAt(a, b, p);
      JoinAt(a, b, o);
      JoinPaired(a, b, p + 1);
      var l := BranchTarget(s, p);
      if p >= |a| {
        OpenRight(a, b, p, o);
        JoinWithin(a, b, p, o, l);
      } else if o < |a| {
        OpenLeft(a, b, p, o);
        JoinWithin(a, b, p, o, l);
      } else {
        CrossPocket(a, b, p, o);
      }
    }
  }

  lemma CrossPocket(a: Code, b: Code, p: nat, o: nat)
    requires Closed(a) || (Tail(a) && Starts(b))
    requires p < |a| <= o && IsBranch(a, p) && IsJump(b, o - |a|) && Open(a + b, p, o)
    ensures o == p + 1 || Within(a + b, p, o, BranchTarget(a, p)) || (o == p + 3 && Paired(a + b, p + 1))
  {
    hide Within, Paired, Open;
    var l := BranchTarget(a, p);
    OpenLeft(a, b, p, o);
    JoinPaired(a, b, p + 1);
    OpenNone(b);
    if Within(a, p, |a|, l) {
      JoinWithin(a, b, p, |a|, l);
      WithinWider(a + b, p, |a|, p, o, l);
    }
  }

  lemma OpenNone(s: Code)
    ensures Open(s, -1, 0)
  {
  }

  /** Only jumps right behind a branch lead to l. */
  ghost predicate FromBranches(s: Code, l: nat) {
    forall r: nat :: Refers(s, r, l) ==> 0 < r && IsJump(s, r) && IsBranch(s, r - 1)
  }

  /** The piece ends in a branch and a jump, and its label comes first in the next one. */
  predicate PairedAcross(a: Code, b: Code) {
    |a| >= 2 && IsBranch(a, |a| - 2) && IsJump(a, |a| - 1) && b != [] && b[0] == L(a[|a| - 1].insn.l)
  }

  /** The piece ends in a branch, and the next one starts with a jump and its label. */
  predicate PairedBehind(a: Code, b: Code) {
    a != [] && IsBranch(a, |a| - 1) && IsJump(b, 0) && |b| > 1 && b[1] == L(b[0].insn.l)
  }

  /** Nothing but the first element leads to l. */
  ghost predicate OnlyFirst(s: Code, l: nat) {
    forall r: nat :: Refers(s, r, l) ==> r == 0
  }

  /** Where two pieces meet no two jumps do, and a pair that comes about there owns its label. */
  ghost predicate Fits(a: Code, b: Code, own: set<nat>, refs0: set<nat>, refs: set<nat>) {
    && !(a != [] && IsJump(a, |a| - 1) && IsJump(b, 0))
    && (PairedBehind(a, b) ==> var l := b[0].insn.l; l in own && l !in refs0 && OnlyFirst(b, l))
    && (PairedAcross(a, b) ==> var l := a[|a| - 1].insn.l; l in own && l !in refs && FromBranches(a, l))
  }

  lemma JoinRefers(a: Code, b: Code, r: nat, l: nat)
    ensures Refers(a + b, r, l) <==> Refers(a, r, l) || (|a| <= r && Refers(b, r - |a|, l))
  {
  }

  lemma NotRefers(s: Code, refs: set<nat>, l: nat)
    requires RefsIn(s, refs) && l !in refs
    ensures forall r: nat :: !Refers(s, r, l)
  {
  }

  lemma JoinRefs(a: Code, refs: set<nat>, b: Code, refs': set<nat>)
    requires RefsIn(a, refs) && RefsIn(b, refs')
    ensures RefsIn(a + b, refs + refs')
  {
    var s := a + b;
    forall q: nat | q < |s| && s[q].I? && Target(s[q].insn).Some? ensures Target(s[q].insn).value in refs + refs' {
      JoinAt(a, b, q);
    }
  }

  /** A paired jump of two pieces put together is one of theirs or comes about where they meet. */
  lemma PairedParts(a: Code, b: Code, q: nat)
    requires Paired(a + b, q)
    ensures || Paired(a, q)
            || (|a| <= q && Paired(b, q - |a|))
            || (q == |a| - 1 && PairedAcross(a, b))
            || (q == |a| && PairedBehind(a, b))
  {
    JoinAt(a, b, q - 1);
    JoinAt(a, b, q);
    JoinAt(a, b, q + 1);
  }

  lemma PairIs(s: Code, own: set<nat>, q: nat)
    requires Paired(s, q) && PairsIn(s, own)
    ensures 0 < q < |s| && IsJump(s, q) && IsBranch(s, q - 1) && s[q].insn.l in own
  {
  }

  /** Who leads to the label of a paired jump. */
  lemma OwnedAcross(a: Code, own: set<nat>, refs: set<nat>, b: Code, own': set<nat>, refs': set<nat>, all: set<nat>,
                    q: nat, r: nat)
    requires Owned(a) && PairsIn(a, own) && RefsIn(a, refs) && Owned(b) && PairsIn(b, own') && RefsIn(b, refs')
    requires own !! refs' && own' !! refs && Fits(a, b, all, refs, refs')
    requires Paired(a + b, q) && Refers(a + b, r, (a + b)[q].insn.l)
    ensures r <= q && 0 < r && IsJump(a + b, r) && IsBranch(a + b, r - 1)
  {
    var l := (a + b)[q].insn.l;
    PairedParts(a, b, q);
    JoinRefers(a, b, r, l);
    JoinAt(a, b, q);
    JoinAt(a, b, r);
    if r > 0 { JoinAt(a, b, r - 1); }
    hide Paired, PairsIn, RefsIn, Refers;
    if Paired(a, q) {
      PairIs(a, own, q);
      NotRefers(b, refs', l);
    } else if |a| <= q && Paired(b, q - |a|) {
      PairIs(b, own', q - |a|);
      NotRefers(a, refs, l);
    } else if q == |a| {
      NotRefers(a, refs, l);
    } else {
      NotRefers(b, refs', l);
    }
  }

  lemma JoinOwned(a: Code, own: set<nat>, refs: set<nat>, b: Code, own': set<nat>, refs': set<nat>, all: set<nat>)
    requires Owned(a) && PairsIn(a, own) && RefsIn(a, refs) && Owned(b) && PairsIn(b, own') && RefsIn(b, refs')
    requires own !! refs' && own' !! refs && Fits(a, b, all, refs, refs')
    ensures Owned(a + b)
  {
    var s := a + b;
    forall q: nat, r: nat | Paired(s, q) && r < |s| && s[r].I? && Target(s[r].insn) == Some(s[q].insn.l)
      ensures r <= q && 0 < r && IsJump(s, r) && IsBranch(s, r - 1)
    {
      hide Owned, RefsIn, Fits, PairsIn, Paired, Target;
      assert Refers(s, r, s[q].insn.l);
      OwnedAcross(a, own, refs, b, own', refs', all, q, r);
    }
  }

  lemma JoinPairs(a: Code, own: set<nat>, refs: set<nat>, b: Code, own': set<nat>, refs': set<nat>, all: set<nat>)
    requires PairsIn(a, own) && PairsIn(b, own') && Fits(a, b, all, refs, refs') && own <= all && own' <= all
    ensures PairsIn(a + b, all)
  {
    var s := a + b;
    forall q: nat | Paired(s, q) ensures s[q].insn.l in all {
      PairedParts(a, b, q);
      JoinAt(a, b, q);
      hide PairsIn;
      PairIn(a, own, q);
      if q >= |a| { PairIn(b, own', q - |a|); }
    }
  }

  lemma PairIn(s: Code, own: set<nat>, q: nat)
    requires PairsIn(s, own)
    ensures Paired(s, q) ==> s[q].insn.l in own
  {
  }

  /** Each label the first piece counts on is ahead of both or in the second. */
  ghost predicate Covers(b: Code, ahead: set<nat>, ahead': set<nat>) {
    forall l :: l in ahead ==> l in ahead' || Within(b, -1, |b|, l)
  }

  lemma JoinPiece(a: Code, ahead: set<nat>, own: set<nat>, refs: set<nat>,
                  b: Code, ahead': set<nat>, own': set<nat>, refs': set<nat>, all: set<nat>)
    requires Piece(a, ahead, own, refs) && Piece(b, ahead', own', refs')
    requires Closed(a) || (Tail(a) && Starts(b))
    requires Covers(b, ahead, ahead')
    requires own !! refs' && own' !! refs && Fits(a, b, all, refs, refs') && own <= all && own' <= all
    ensures Piece(a + b, ahead', all, refs + refs')
  {
    assert Spaced(a + b) by {
      hide LeadsAhead, PocketsIn, Owned, PairsIn, RefsIn, Closed, Tail, Starts, Covers, FromBranches, PairedAcross;
      JoinSpaced(a, b);
    }
    hide Spaced, LeadsAhead, PocketsIn, Owned, PairsIn, RefsIn, Closed, Tail, Starts, Fits;
    JoinAhead(a, ahead, b, ahead');
    JoinPockets(a, b);
    JoinOwned(a, own, refs, b, own', refs', all);
    JoinPairs(a, own, refs, b, own', refs', all);
    JoinRefs(a, refs, b, refs');
  }

  // ----- pieces that can be put behind and before others -----

  /** A piece whose branches need nothing behind it and that does not end in a jump or a branch. */
  ghost predicate Core(s: Code, ahead: set<nat>, own: set<nat>, refs: set<nat>) {
    Piece(s, ahead, own, refs) && Closed(s) && Ends(s) && Opens(s, own)
  }

  /** If it starts with a jump and its label, that is one of own and nothing else leads to it. */
  ghost predicate Opens(s: Code, own: set<nat>) {
    IsJump(s, 0) && |s| > 1 && s[1] == L(s[0].insn.l) ==> s[0].insn.l in own && OnlyFirst(s, s[0].insn.l)
  }

  predicate Ends(s: Code) {
    s != [] ==> !IsJump(s, |s| - 1) && !IsBranch(s, |s| - 1)
  }

  /** A piece that a branch can be put in front of. */
  ghost predicate Front(s: Code) {
    Starts(s) && (IsJump(s, 0) ==> |s| > 1)
  }

  lemma EndsFit(a: Code, b: Code, all: set<nat>, refs0: set<nat>, refs: set<nat>)
    requires Ends(a)
    ensures Fits(a, b, all, refs0, refs)
  {
  }

  lemma JoinOpens(a: Code, own: set<nat>, b: Code, own': set<nat>, refs': set<nat>)
    requires Opens(a, own) && Opens(b, own') && RefsIn(b, refs') && own !! refs'
    requires a != [] && IsJump(a, 0) ==> |a| > 1
    ensures Opens(a + b, own + own')
  {
    var s := a + b;
    if a == [] {
      assert s == b;
    } else if IsJump(s, 0) && |s| > 1 && s[1] == L(s[0].insn.l) {
      var l := s[0].insn.l;
      assert IsJump(a, 0) && a[1] == s[1] && OnlyFirst(a, l);
      NotRefers(b, refs', l);
      forall r: nat | Refers(s, r, l) ensures r == 0 { JoinRefers(a, b, r, l); }
    }
  }

  lemma EndsLong(s: Code)
    requires Ends(s)
    ensures s != [] && IsJump(s, 0) ==> |s| > 1
  {
  }

  lemma JoinEnds(a: Code, b: Code)
    requires Ends(b) && (b == [] ==> Ends(a))
    ensures Ends(a + b)
  {
    if b == [] { assert a + b == a; }
  }

  lemma JoinClosed(a: Code, b: Code)
    requires Closed(b) && (Closed(a) || HasSolid(b))
    ensures Closed(a + b)
  {
    var s := a + b;
    hide Within, Open;
    forall p: nat | IsBranch(s, p) && Open(s, p, |s|) ensures Within(s, p, |s|, BranchTarget(s, p)) {
      JoinAt(a, b, p);
      var l := BranchTarget(s, p);
      if p >= |a| {
        OpenRight(a, b, p, |s|);
        JoinWithin(a, b, p, |s|, l);
      } else {
        if b == [] { assert s == a; } else { OpenLeft(a, b, p, |s|); NoneSolid(b); }
        WithinLeft(a, b, p, l);
      }
    }
  }

  lemma NoneSolid(s: Code)
    requires Open(s, -1, |s|)
    ensures !HasSolid(s)
  {
  }

  lemma JoinCore(a: Code, ahead: set<nat>, own: set<nat>, refs: set<nat>,
                 b: Code, ahead': set<nat>, own': set<nat>, refs': set<nat>)
    requires Core(a, ahead, own, refs) && Core(b, ahead', own', refs') && Covers(b, ahead, ahead')
    requires own !! refs' && own' !! refs
    ensures Core(a + b, ahead', own + own', refs + refs')
  {
    hide Piece, Closed, Ends, Fits, Covers, Opens, RefsIn;
    EndsFit(a, b, own + own', refs, refs');
    EndsLong(a);
    assert RefsIn(b, refs') by { PieceRefs(b, ahead', own', refs'); }
    JoinOpens(a, own, b, own', refs');
    JoinPiece(a, ahead, own, refs, b, ahead', own', refs', own + own');
    JoinClosed(a, b);
    JoinEnds(a, b);
  }

  lemma JoinFront(a: Code, b: Code)
    requires Front(a) && HasSolid(a)
    ensures Front(a + b)
  {
    var s := a + b;
    hide HasSolid;
    forall o: nat | IsJump(s, o) && Open(s, -1, o) ensures o == 0 {
      JoinAt(a, b, o);
      if o < |a| {
        forall j | -1 < j < o ensures a[j].L? || IsJump(a, j) { JoinAt(a, b, j); }
        assert Open(a, -1, o);
      } else {
        forall j | -1 < j < |a| ensures a[j].L? || IsJump(a, j) { JoinAt(a, b, j); assert s[j].L? || IsJump(s, j); }
        NoneSolid(a);
      }
    }
    assert a != [] by { if a == [] { NoneSolid(a); } }
    JoinAt(a, b, 0);
  }

  lemma JoinSolid(a: Code, b: Code)
    requires HasSolid(a) || HasSolid(b)
    ensures HasSolid(a + b)
  {
    if HasSolid(a) {
      var q: nat :| Solid(a, q);
      JoinAt(a, b, q);
    } else {
      var q: nat :| Solid(b, q);
      JoinAt(a, b, q + |a|);
    }
  }

  lemma Wider(s: Code, ahead: set<nat>, own: set<nat>, refs: set<nat>, ahead': set<nat>, own': set<nat>,
              refs': set<nat>)
    requires Core(s, ahead, own, refs) && ahead <= ahead' && own <= own' && refs <= refs'
    ensures Core(s, ahead', own', refs')
  {
    hide Spaced, PocketsIn, Owned, Closed, Ends, Within, FirmIn;
  }

  /** Where a label leads to something solid in the piece itself, it need not be ahead. */
  lemma AheadFirm(s: Code, ahead: set<nat>, own: set<nat>, refs: set<nat>, l: nat)
    requires Core(s, ahead + {l}, own, refs) && FirmIn(s, l)
    ensures Core(s, ahead, own, refs)
  {
    hide Spaced, PocketsIn, Owned, PairsIn, RefsIn, Closed, Ends, Within, FirmIn;
  }

  // ----- the pieces of a condition -----

  /** A piece that ends in a branch to e and a jump to t. */
  ghost predicate CondPiece(s: Code, t: nat, e: nat, ahead: set<nat>, own: set<nat>, refs: set<nat>) {
    && Piece(s, ahead, own, refs) && Front(s) && Opens(s, own) && HasSolid(s) && FromBranches(s, t)
    && Forks(s, t, e) && OpenLast(s)
  }

  predicate Forks(s: Code, t: nat, e: nat) {
    |s| >= 2 && s[|s| - 2] == I(BranchUnless(e)) && s[|s| - 1] == I(Jump(t))
  }

  /** Only its last branch has nothing but labels and jumps behind it. */
  ghost predicate OpenLast(s: Code) {
    forall p: nat :: IsBranch(s, p) && Open(s, p, |s|) ==> p == |s| - 2
  }

  ghost predicate OpenTo(s: Code, e: nat) {
    forall p: nat :: IsBranch(s, p) && Open(s, p, |s|) ==> BranchTarget(s, p) == e
  }

  lemma LabelPiece(x: nat)
    ensures Core([L(x)], {}, {}, {}) && Starts([L(x)])
  {
    var s := [L(x)];
    assert forall q: nat :: !IsJump(s, q) && !IsBranch(s, q) && !Paired(s, q);
  }

  /** One of its two labels put behind the code of a condition. */
  lemma CondLabel(s: Code, t: nat, e: nat, ahead: set<nat>, own: set<nat>, refs: set<nat>, x: nat)
    requires CondPiece(s, t, e, ahead, own, refs) && t !in own && (x == t || x == e) && ahead <= refs
    ensures var r := s + [L(x)];
            Tail(r) && OpenTo(r, e) && Ends(r) && Front(r) && HasSolid(r)
  {
    var r := s + [L(x)];
    assert r[|s|] == L(x);
    assert Ends(r);
    JoinFront(s, [L(x)]);
    JoinSolid(s, [L(x)]);
    hide Piece, Front, HasSolid, FromBranches, Within;
    forall p: nat | IsBranch(r, p) && Open(r, p, |r|)
      ensures p == |s| - 2
    {
      JoinAt(s, [L(x)], p);
      OpenLeft(s, [L(x)], p, |r|);
    }
    assert IsBranch(r, |s| - 2) && BranchTarget(r, |s| - 2) == e;
    if x == e {
      assert Within(r, |s| - 2, |r|, e) by { WithinIs(r, |s| - 2, |r|, e, |s|); }
    } else {
      assert Paired(r, |s| - 1);
    }
  }

  lemma WithinIs(s: Code, p: int, o: nat, l: nat, r: nat)
    requires p < r < o && r < |s| && s[r] == L(l)
    ensures Within(s, p, o, l)
  {
  }

  /** The label of the pair that label x makes behind a jump to t. */
  ghost function Made(t: nat, x: nat): set<nat> {
    if x == t then {t} else {}
  }

  lemma CondLabelPiece(s: Code, t: nat, e: nat, ahead: set<nat>, own: set<nat>, refs: set<nat>, x: nat)
    requires CondPiece(s, t, e, ahead, own, refs)
    ensures Piece(s + [L(x)], ahead, own + Made(t, x), refs)
  {
    var b := [L(x)];
    assert Spaced(s + b) && Piece(b, ahead, {}, {}) by {
      LabelPiece(x);
      Wider(b, {}, {}, {}, ahead, {}, {});
      hide LeadsAhead, PocketsIn, Owned, PairsIn, RefsIn, Starts, FromBranches, OpenLast;
      JoinSpaced(s, b);
    }
    assert Fits(s, b, own + Made(t, x), refs, {}) by { hide Piece, Front, OpenLast; }
    assert PocketsIn(s + b) by { LabelPockets(s, x); }
    hide Spaced, LeadsAhead, PocketsIn, Owned, PairsIn, RefsIn, Starts, FromBranches, OpenLast, Fits;
    JoinAhead(s, ahead, b, ahead);
    JoinOwned(s, own, refs, b, {}, {}, own + Made(t, x));
    JoinPairs(s, own, refs, b, {}, {}, own + Made(t, x));
    JoinRefs(s, refs, b, {});
    assert refs + {} == refs;
  }

  lemma LabelPockets(s: Code, x: nat)
    requires PocketsIn(s)
    ensures PocketsIn(s + [L(x)])
  {
    var r := s + [L(x)];
    hide Within, Paired, Open;
    forall p: nat, o: nat | IsBranch(r, p) && p < o && IsJump(r, o) && Open(r, p, o)
      ensures o == p + 1 || Within(r, p, o, BranchTarget(r, p)) || (o == p + 3 && Paired(r, p + 1))
    {
      JoinAt(s, [L(x)], p);
      JoinAt(s, [L(x)], o);
      OpenLeft(s, [L(x)], p, o);
      JoinPaired(s, [L(x)], p + 1);
      JoinWithin(s, [L(x)], p, o, BranchTarget(r, p));
    }
  }

  /** Where what comes behind has the label of the last branch, no branch needs more. */
  lemma JoinClosedTo(a: Code, b: Code, e: nat)
    requires Closed(b) && OpenTo(a, e) && (HasSolid(b) || Within(b, -1, |b|, e))
    ensures Closed(a + b)
  {
    var s := a + b;
    hide Within, Open;
    forall p: nat | IsBranch(s, p) && Open(s, p, |s|) ensures Within(s, p, |s|, BranchTarget(s, p)) {
      JoinAt(a, b, p);
      var l := BranchTarget(s, p);
      if p >= |a| {
        OpenRight(a, b, p, |s|);
        JoinWithin(a, b, p, |s|, l);
      } else if b == [] {
        EmptyWithin(e);
        NoneSolid(b);
        assert false;
      } else {
        OpenLeft(a, b, p, |s|);
        NoneSolid(b);
        WithinLeft(a, b, p, l);
      }
    }
  }

  lemma EmptyWithin(l: nat)
    ensures !Within([], -1, 0, l) && Open([], -1, 0)
  {
  }

  lemma CondOpens(s: Code, own: set<nat>, x: nat, b: Code, refs': set<nat>, all: set<nat>)
    requires Opens(s, own) && |s| >= 2 && RefsIn(b, refs') && own !! refs' && own <= all
    ensures Opens(s + ([L(x)] + b), all)
  {
    var r := s + ([L(x)] + b);
    if IsJump(r, 0) && r[1] == L(r[0].insn.l) {
      var l := r[0].insn.l;
      assert IsJump(s, 0) && s[1] == r[1] && OnlyFirst(s, l);
      NotRefers(b, refs', l);
      forall q: nat | Refers(r, q, l) ensures q == 0 {
        JoinRefers(s, [L(x)] + b, q, l);
        if q >= |s| { JoinRefers([L(x)], b, q - |s|, l); }
      }
    }
  }

  /** The code of a condition, one of its two labels, and what follows. */
  lemma CondThen(s: Code, t: nat, e: nat, ahead: set<nat>, own: set<nat>, refs: set<nat>, x: nat,
                 b: Code, ahead': set<nat>, own': set<nat>, refs': set<nat>)
    requires CondPiece(s, t, e, ahead, own, refs) && t !in own && (x == t || x == e) && ahead <= refs
    requires Core(b, ahead', own', refs') && Starts(b) && Covers(b, ahead, ahead')
    requires HasSolid(b) || Within(b, -1, |b|, e)
    requires own + Made(t, x) !! refs' && own' !! refs
    ensures var r := s + ([L(x)] + b);
            Core(r, ahead', own + Made(t, x) + own', refs + refs') && Front(r) && HasSolid(r)
  {
    var r := s + [L(x)];
    CondOpening(s, t, e, ahead, own, refs, x, b, refs',
                own + Made(t, x) + own') by { hide CondPiece; PieceRefs(b, ahead', own', refs'); }
    hide CondPiece, Piece, Closed, Tail, Starts, Ends, Front, HasSolid, Fits, Covers, Within, OpenTo, Opens;
    CondLabel(s, t, e, ahead, own, refs, x);
    CondLabelPiece(s, t, e, ahead, own, refs, x);
    EndsFit(r, b, own + Made(t, x) + own', refs, refs');
    JoinPiece(r, ahead, own + Made(t, x), refs, b, ahead', own', refs', own + Made(t, x) + own');
    JoinClosedTo(r, b, e);
    JoinEnds(r, b);
    JoinFront(r, b);
    JoinSolid(r, b);
    assert r + b == s + ([L(x)] + b);
  }

  lemma CondOpening(s: Code, t: nat, e: nat, ahead: set<nat>, own: set<nat>, refs: set<nat>, x: nat,
                    b: Code, refs': set<nat>, all: set<nat>)
    requires CondPiece(s, t, e, ahead, own, refs) && RefsIn(b, refs') && own !! refs' && own <= all
    ensures Opens(s + ([L(x)] + b), all)
  {
    hide Piece, Front, HasSolid, FromBranches, OpenLast, Opens, RefsIn;
    CondOpens(s, own, x, b, refs', all);
  }

  /** The code of two conditions with label x between them. */
  lemma CondPair(s: Code, t: nat, e: nat, ahead: set<nat>, own: set<nat>, refs: set<nat>, x: nat,
                 b: Code, t': nat, e': nat, own': set<nat>, refs': set<nat>)
    requires CondPiece(s, t, e, ahead, own, refs) && t !in own && ahead <= refs
    requires CondPiece(b, t', e', ahead, own', refs')
    requires (x == t && e == e') || (x == e && t == t')
    requires own + Made(t, x) !! refs' && own' !! refs && (t' in refs ==> t' == t)
    ensures CondPiece(s + ([L(x)] + b), t', e', ahead, own + Made(t, x) + own', refs + refs')
  {
    var r := s + [L(x)];
    assert Opens(s + ([L(x)] + b), own + Made(t, x) + own') by {
      hide Piece, Front, HasSolid, FromBranches, OpenLast, Opens, Forks;
      PieceRefs(b, ahead, own', refs');
      CondOpening(s, t, e, ahead, own, refs, x, b, refs', own + Made(t, x) + own');
    }
    hide Opens, RefsIn;
    assert FromBranches(r + b, t') by {
      hide Piece, Front, HasSolid, Forks, OpenLast;
      PairBranches(s, t, refs, x, b, t') by {
        hide FromBranches;
        PieceRefs(s, ahead, own, refs);
      }
    }
    assert OpenLast(r + b) by { hide Piece, Front, FromBranches, Forks; JoinOpen(r, b); }
    hide FromBranches, OpenLast;
    assert Starts(b) && Forks(r + b, t', e') by { hide Piece; assert (r + b)[|r + b| - 2] == b[|b| - 2]; }
    hide Piece, Tail, Starts, Ends, HasSolid, Fits, Forks;
    CondLabel(s, t, e, ahead, own, refs, x);
    CondLabelPiece(s, t, e, ahead, own, refs, x);
    EndsFit(r, b, own + Made(t, x) + own', refs, refs');
    JoinPiece(r, ahead, own + Made(t, x), refs, b, ahead, own', refs', own + Made(t, x) + own');
    JoinFront(r, b);
    JoinSolid(r, b);
    assert r + b == s + ([L(x)] + b);
  }

  lemma PieceRefs(s: Code, ahead: set<nat>, own: set<nat>, refs: set<nat>)
    requires Piece(s, ahead, own, refs)
    ensures RefsIn(s, refs)
  {
  }

  lemma PairBranches(s: Code, t: nat, refs: set<nat>, x: nat, b: Code, t': nat)
    requires FromBranches(s, t) && FromBranches(b, t') && RefsIn(s, refs) && (t' in refs ==> t' == t)
    ensures FromBranches(s + [L(x)] + b, t')
  {
    var r := s + [L(x)];
    if t' !in refs { NotRefers(s, refs, t'); }
    hide RefsIn;
    forall q: nat | Refers(r + b, q, t') ensures 0 < q && IsJump(r + b, q) && IsBranch(r + b, q - 1) {
      JoinRefers(r, b, q, t');
      JoinRefers(s, [L(x)], q, t');
      JoinAt(r, b, q);
      JoinAt(s, [L(x)], q);
      if q > 0 { JoinAt(r, b, q - 1); JoinAt(s, [L(x)], q - 1); }
    }
  }

  lemma JoinOpen(a: Code, b: Code)
    requires OpenLast(b) && HasSolid(b)
    ensures OpenLast(a + b)
  {
    var s := a + b;
    hide Open, HasSolid;
    forall p: nat | IsBranch(s, p) && Open(s, p, |s|) ensures p == |s| - 2 {
      JoinAt(a, b, p);
      if p >= |a| {
        OpenRight(a, b, p, |s|);
      } else {
        if b != [] { OpenLeft(a, b, p, |s|); } else { OpenNone(b); }
        NoneSolid(b);
      }
    }
  }
}
