/** The storage of array.c: arrays embedded in their object, owning a heap buffer, or viewing the
    buffer of a shared root that counts its sharers. Object and buffer addresses are numbers;
    freeing a buffer removes it from the heap, so that using it afterwards cannot verify. */
module CowArray {

  type Value = int

  const NIL: Value := 4

  const EMBED_MAX: nat := 3      // RARRAY_EMBED_LEN_MAX
  const DEFAULT_SIZE: nat := 16  // ARY_DEFAULT_SIZE

  /** An RArray object. A root is the hidden, frozen owner of a shared buffer; its count of sharers
      lives in the capacity field. */
  datatype RArray =
    | Embed(slots: seq<Value>, len: nat)
    | Own(buf: nat, len: nat, capa: nat)
    | Shared(buf: nat, off: nat, len: nat, root: nat)
    | Root(buf: nat, len: nat, num: int)

  type Arrays = map<nat, RArray>
  type Buffers = map<nat, seq<Value>>

  /** The arrays that view a root's buffer. */
  ghost function Sharers(arrs: Arrays, r: nat): set<nat> {
    set k | k in arrs && arrs[k].Shared? && arrs[k].root == r
  }

  /** One object's fields fit the heap: in particular a view stays inside the live buffer of its
      root, and a root's count is at least the number of arrays that view its buffer. */
  ghost predicate Fits(arrs: Arrays, bufs: Buffers, k: nat)
    requires k in arrs
  {
    match arrs[k]
    case Embed(slots, len) => |slots| == EMBED_MAX && len <= EMBED_MAX
    case Own(buf, len, capa) => buf in bufs && |bufs[buf]| == capa && len <= capa
    case Shared(buf, off, len, root) =>
      && root in arrs && arrs[root].Root? && arrs[root].buf == buf && off + len <= arrs[root].len
      && buf in bufs && arrs[root].len <= |bufs[buf]|
    case Root(buf, len, num) => buf in bufs && len <= |bufs[buf]| && |Sharers(arrs, k)| <= num
  }

  predicate Owns(a: RArray) {
    a.Own? || a.Root?
  }

  /** No buffer has two owners. */
  ghost predicate Separate(arrs: Arrays) {
    forall i, j :: i in arrs && j in arrs && i != j && Owns(arrs[i]) && Owns(arrs[j]) ==> arrs[i].buf != arrs[j].buf
  }

  ghost predicate Consistent(arrs: Arrays, bufs: Buffers) {
    && (forall k :: k in arrs ==> Fits(arrs, bufs, k))
    && Separate(arrs)
  }

  /** The storage cells an array reaches from its pointer on. */
  function Cells(a: RArray, bufs: Buffers): seq<Value> {
    match a
    case Embed(slots, _) => slots
    case Shared(buf, off, _, _) => if buf in bufs && off <= |bufs[buf]| then bufs[buf][off..] else []
    case Own(buf, _, _) => if buf in bufs then bufs[buf] else []
    case Root(buf, _, _) => if buf in bufs then bufs[buf] else []
  }

  /** The elements of an array: as many cells as its length says. */
  function Elements(a: RArray, bufs: Buffers): seq<Value> {
    var s := Cells(a, bufs);
    if a.len <= |s| then s[..a.len] else []
  }

  type View = map<nat, seq<Value>>

  /** The arrays a program sees, each as its own sequence. */
  ghost function ViewOf(arrs: Arrays, bufs: Buffers): View {
    map k | k in arrs && !arrs[k].Root? :: Elements(arrs[k], bufs)
  }

  lemma SharersUpdate(arrs: Arrays, k: nat, a: RArray, r: nat)
    ensures var s := Sharers(arrs, r);
            Sharers(arrs[k := a], r) == if a.Shared? && a.root == r then s + {k} else s - {k}
  {
  }

  lemma SharersSame(arrs: Arrays, arrs': Arrays, r: nat)
    requires forall k :: k in arrs && arrs[k].Shared? && arrs[k].root == r <==>
             k in arrs' && arrs'[k].Shared? && arrs'[k].root == r
    ensures Sharers(arrs', r) == Sharers(arrs, r)
  {
  }

  /** Changing the storage one array has to itself leaves every other array as it was. */
  lemma SetOwn(arrs: Arrays, bufs: Buffers, k: nat, a: RArray, bufs': Buffers)
    requires Consistent(arrs, bufs)
    requires k in arrs ==> arrs[k].Embed? || arrs[k].Own?
    requires a.Embed? || a.Own?
    requires forall b :: b in bufs && !(k in arrs && arrs[k].Own? && arrs[k].buf == b) ==>
             b in bufs' && bufs'[b] == bufs[b]
    requires a.Own? ==> (k in arrs && arrs[k].Own? && arrs[k].buf == a.buf) || a.buf !in bufs
    requires a.Embed? ==> |a.slots| == EMBED_MAX && a.len <= EMBED_MAX
    requires a.Own? ==> a.buf in bufs' && |bufs'[a.buf]| == a.capa && a.len <= a.capa
    ensures Consistent(arrs[k := a], bufs')
    ensures ViewOf(arrs[k := a], bufs') == ViewOf(arrs, bufs)[k := Elements(a, bufs')]
  {
    hide Sharers, Cells, Fits, Elements, Separate;
    var arrs' := arrs[k := a];
    forall j | j in arrs'
      ensures Fits(arrs', bufs', j) && (j != k ==> Elements(arrs[j], bufs') == Elements(arrs[j], bufs))
    {
      if j == k { FitsAlone(arrs', bufs', k); } else { SetOther(arrs, bufs, k, a, bufs', j); }
    }
    OneView(arrs, bufs, k, a, bufs');
    OwnersKept(arrs, bufs, k, a);
  }

  lemma FitsAlone(arrs: Arrays, bufs: Buffers, k: nat)
    requires k in arrs && (arrs[k].Embed? || arrs[k].Own?)
    requires arrs[k].Embed? ==> |arrs[k].slots| == EMBED_MAX && arrs[k].len <= EMBED_MAX
    requires arrs[k].Own? ==> arrs[k].buf in bufs && |bufs[arrs[k].buf]| == arrs[k].capa && arrs[k].len <= arrs[k].capa
    ensures Fits(arrs, bufs, k)
  {
  }

  lemma SetOther(arrs: Arrays, bufs: Buffers, k: nat, a: RArray, bufs': Buffers, j: nat)
    requires Consistent(arrs, bufs) && j in arrs && j != k
    requires k in arrs ==> arrs[k].Embed? || arrs[k].Own?
    requires a.Embed? || a.Own?
    requires forall b :: b in bufs && !(k in arrs && arrs[k].Own? && arrs[k].buf == b) ==>
             b in bufs' && bufs'[b] == bufs[b]
    ensures Fits(arrs[k := a], bufs', j) && Elements(arrs[j], bufs') == Elements(arrs[j], bufs)
  {
    hide Sharers, Cells;
    assert Fits(arrs, bufs, j);
    SharersSame(arrs, arrs[k := a], j);
    if !arrs[j].Embed? { OtherBuffer(arrs, bufs, k, j); }
    SameBuffer(arrs[j], bufs, bufs');
  }

  /** Where only one array changes its elements, it does so in what a program sees. */
  lemma OneView(arrs: Arrays, bufs: Buffers, k: nat, a: RArray, bufs': Buffers)
    requires !a.Root? && forall j :: j in arrs && j != k ==> Elements(arrs[j], bufs') == Elements(arrs[j], bufs)
    ensures ViewOf(arrs[k := a], bufs') == ViewOf(arrs, bufs)[k := Elements(a, bufs')]
  {
    hide Elements;
  }

  /** Whatever buffer another array uses is not the one k owns. */
  lemma OtherBuffer(arrs: Arrays, bufs: Buffers, k: nat, j: nat)
    requires Consistent(arrs, bufs) && j in arrs && j != k && !arrs[j].Embed?
    ensures arrs[j].buf in bufs
    ensures k in arrs && arrs[k].Own? ==> arrs[j].buf != arrs[k].buf
  {
    assert Fits(arrs, bufs, j);
  }

  lemma SameBuffer(a: RArray, bufs: Buffers, bufs': Buffers)
    requires a.Embed? || (a.buf in bufs && a.buf in bufs' && bufs'[a.buf] == bufs[a.buf])
    ensures Cells(a, bufs') == Cells(a, bufs) && Elements(a, bufs') == Elements(a, bufs)
  {
  }

  lemma OwnersKept(arrs: Arrays, bufs: Buffers, k: nat, a: RArray)
    requires Consistent(arrs, bufs)
    requires Owns(a) ==> (k in arrs && Owns(arrs[k]) && arrs[k].buf == a.buf) || a.buf !in bufs
    ensures Separate(arrs[k := a])
  {
    forall j | j in arrs && Owns(arrs[j]) ensures arrs[j].buf in bufs {
      assert Fits(arrs, bufs, j);
    }
  }

  /** Moving the window of one view inside its root's buffer. */
  lemma MoveView(arrs: Arrays, bufs: Buffers, k: nat, off: nat, len: nat)
    requires Consistent(arrs, bufs) && k in arrs && arrs[k].Shared?
    requires off + len <= arrs[arrs[k].root].len
    ensures var a := arrs[k].(off := off, len := len);
            Consistent(arrs[k := a], bufs) && ViewOf(arrs[k := a], bufs) == ViewOf(arrs, bufs)[k := Elements(a, bufs)]
  {
    hide Sharers, Cells;
    var arrs' := arrs[k := arrs[k].(off := off, len := len)];
    forall j | j in arrs' ensures Fits(arrs', bufs, j) {
      assert Fits(arrs, bufs, j);
      SharersSame(arrs, arrs', j);
    }
  }

  /** ary_make_shared on an owned buffer: a fresh root takes the buffer over, the array views all of
      it, and it is the only sharer. */
  lemma BecomeShared(arrs: Arrays, bufs: Buffers, k: nat, r: nat)
    requires Consistent(arrs, bufs) && k in arrs && arrs[k].Own? && r !in arrs
    ensures var a := arrs[k];
            var arrs' := arrs[r := Root(a.buf, a.len, 1)][k := Shared(a.buf, 0, a.len, r)];
            Consistent(arrs', bufs) && ViewOf(arrs', bufs) == ViewOf(arrs, bufs)
  {
    hide Sharers, Cells, Separate;
    var a := arrs[k];
    var arrs' := arrs[r := Root(a.buf, a.len, 1)][k := Shared(a.buf, 0, a.len, r)];
    assert Fits(arrs, bufs, k);
    NewRootSharers(arrs, bufs, k, r);
    forall j | j in arrs' ensures Fits(arrs', bufs, j) {
      if j in arrs && j != k {
        assert Fits(arrs, bufs, j);
        SharersSame(arrs, arrs', j);
      }
    }
    RootTakesOver(arrs, k, r);
    SharedElements(a, bufs, r);
  }

  lemma NewRootSharers(arrs: Arrays, bufs: Buffers, k: nat, r: nat)
    requires Consistent(arrs, bufs) && k in arrs && arrs[k].Own? && r !in arrs
    ensures var a := arrs[k];
            Sharers(arrs[r := Root(a.buf, a.len, 1)][k := Shared(a.buf, 0, a.len, r)], r) == {k}
  {
    forall j | j in arrs && arrs[j].Shared? ensures arrs[j].root != r {
      assert Fits(arrs, bufs, j);
    }
  }

  lemma RootTakesOver(arrs: Arrays, k: nat, r: nat)
    requires Separate(arrs) && k in arrs && arrs[k].Own? && r !in arrs
    ensures var a := arrs[k];
            Separate(arrs[r := Root(a.buf, a.len, 1)][k := Shared(a.buf, 0, a.len, r)])
  {
  }

  lemma SharedElements(a: RArray, bufs: Buffers, r: nat)
    requires a.Own? && a.buf in bufs
    ensures Elements(Shared(a.buf, 0, a.len, r), bufs) == Elements(a, bufs)
  {
    assert bufs[a.buf][0..] == bufs[a.buf];
  }

  /** One more array, holding no buffer so far, views a root's buffer, and the root counts it. */
  lemma AddSharer(arrs: Arrays, bufs: Buffers, k: nat, r: nat, off: nat, len: nat)
    requires Consistent(arrs, bufs) && (k in arrs ==> arrs[k].Embed?)
    requires r in arrs && arrs[r].Root? && off + len <= arrs[r].len
    ensures var a := Shared(arrs[r].buf, off, len, r);
            var arrs' := arrs[r := arrs[r].(num := arrs[r].num + 1)][k := a];
            Consistent(arrs', bufs) && ViewOf(arrs', bufs) == ViewOf(arrs, bufs)[k := Elements(a, bufs)]
  {
    hide Sharers, Cells, Separate;
    var root := arrs[r];
    var a := Shared(root.buf, off, len, r);
    var arrs1 := arrs[r := root.(num := root.num + 1)];
    var arrs' := arrs1[k := a];
    assert Fits(arrs, bufs, r);
    SharersUpdate(arrs1, k, a, r);
    SharersSame(arrs, arrs1, r);
    forall j | j in arrs' ensures Fits(arrs', bufs, j) {
      if j in arrs && j != k && j != r {
        assert Fits(arrs, bufs, j);
        SharersSame(arrs, arrs', j);
      }
    }
    CountedRoot(arrs, k, r, a);
  }

  lemma CountedRoot(arrs: Arrays, k: nat, r: nat, a: RArray)
    requires Separate(arrs) && r in arrs && arrs[r].Root? && a.Shared?
    ensures Separate(arrs[r := arrs[r].(num := arrs[r].num + 1)][k := a])
  {
  }

  lemma CardinalityOfSubset(a: set<nat>, b: set<nat>)
    requires a <= b
    ensures |a| <= |b|
  {
    if a != {} {
      var x :| x in a;
      CardinalityOfSubset(a - {x}, b - {x});
    }
  }

  /** When the last sharer has left, nothing else refers to the root or its buffer. */
  lemma FreeRoot(arrs: Arrays, bufs: Buffers, k: nat, a: RArray, r: nat)
    requires Consistent(arrs, bufs) && k in arrs && arrs[k].Shared? && arrs[k].root == r && r in arrs && arrs[r].Root?
    requires Sharers(arrs[k := a], r) == {}
    requires a.Embed? ==> |a.slots| == EMBED_MAX && a.len <= EMBED_MAX
    requires a.Embed? || (a.Own? && a.buf in bufs && |bufs[a.buf]| == a.capa && a.len <= a.capa)
    requires a.Own? ==> forall j :: j in arrs && !arrs[j].Embed? ==> arrs[j].buf != a.buf
    ensures var arrs', bufs' := arrs[k := a] - {r}, bufs - {arrs[r].buf};
            Consistent(arrs', bufs') && ViewOf(arrs', bufs') == ViewOf(arrs, bufs)[k := Elements(a, bufs)]
  {
    hide Sharers, Cells, Fits, Elements, Separate;
    var arrs1 := arrs[k := a];
    var arrs', bufs' := arrs1 - {r}, bufs - {arrs[r].buf};
    forall j | j in arrs' ensures Fits(arrs', bufs', j) && Elements(arrs'[j], bufs') == Elements(arrs1[j], bufs) {
      if j == k {
        RootApart(arrs, bufs, k, r, a);
        FitsAlone(arrs', bufs', k);
        SameBuffer(a, bufs, bufs');
      } else {
        FreedOther(arrs, bufs, k, a, r, j);
      }
    }
    assert Separate(arrs') by { FreedSeparate(arrs, k, a, r); }
    FreedView(arrs, bufs, k, a, r);
  }

  /** A root's buffer is not the storage its last sharer leaves for. */
  lemma RootApart(arrs: Arrays, bufs: Buffers, k: nat, r: nat, a: RArray)
    requires r in arrs && arrs[r].Root? && k in arrs && arrs[k].Shared? && (a.Embed? || a.Own?)
    requires a.Own? ==> forall j :: j in arrs && !arrs[j].Embed? ==> arrs[j].buf != a.buf
    ensures k != r && (a.Own? ==> a.buf != arrs[r].buf)
  {
  }

  lemma FreedOther(arrs: Arrays, bufs: Buffers, k: nat, a: RArray, r: nat, j: nat)
    requires Consistent(arrs, bufs) && k in arrs && arrs[k].Shared? && arrs[k].root == r && r in arrs && arrs[r].Root?
    requires Sharers(arrs[k := a], r) == {} && (a.Embed? || a.Own?) && j in arrs && j != k && j != r
    ensures Fits(arrs[k := a] - {r}, bufs - {arrs[r].buf}, j)
    ensures Elements(arrs[j], bufs - {arrs[r].buf}) == Elements(arrs[j], bufs)
  {
    hide Cells;
    var arrs', bufs' := arrs[k := a] - {r}, bufs - {arrs[r].buf};
    assert Fits(arrs, bufs, j);
    if arrs[j].Root? { FewerSharers(arrs, k, a, r, j); }
    if arrs[j].Shared? {
      assert j !in Sharers(arrs[k := a], r);
      assert Fits(arrs, bufs, arrs[j].root);
    }
    SameBuffer(arrs[j], bufs, bufs');
  }

  lemma FewerSharers(arrs: Arrays, k: nat, a: RArray, r: nat, j: nat)
    requires k in arrs && arrs[k].Shared? && arrs[k].root == r && r in arrs && arrs[r].Root? && !a.Shared? && j != r
    ensures Sharers(arrs[k := a] - {r}, j) == Sharers(arrs, j)
  {
  }

  lemma FreedSeparate(arrs: Arrays, k: nat, a: RArray, r: nat)
    requires Separate(arrs)
    requires a.Own? ==> forall j :: j in arrs && !arrs[j].Embed? ==> arrs[j].buf != a.buf
    requires a.Embed? || a.Own?
    ensures Separate(arrs[k := a] - {r})
  {
  }

  lemma FreedView(arrs: Arrays, bufs: Buffers, k: nat, a: RArray, r: nat)
    requires r in arrs && arrs[r].Root? && k != r && !a.Root?
    requires var arrs', bufs' := arrs[k := a] - {r}, bufs - {arrs[r].buf};
             forall j :: j in arrs' ==> Elements(arrs'[j], bufs') == Elements(arrs[k := a][j], bufs)
    ensures ViewOf(arrs[k := a] - {r}, bufs - {arrs[r].buf}) == ViewOf(arrs, bufs)[k := Elements(a, bufs)]
  {
    hide Elements;
    var arrs', bufs' := arrs[k := a] - {r}, bufs - {arrs[r].buf};
    assert forall j :: j in arrs' ==> Elements(arrs'[j], bufs') == Elements(arrs[k := a][j], bufs);
  }

  /** One sharer leaves for storage of its own: the root counts one less, and is freed with its
      buffer exactly when nobody views it any more. */
  lemma DropSharer(arrs: Arrays, bufs: Buffers, k: nat, a: RArray)
    requires Consistent(arrs, bufs) && k in arrs && arrs[k].Shared?
    requires a.Embed? ==> |a.slots| == EMBED_MAX && a.len <= EMBED_MAX
    requires a.Embed? || (a.Own? && a.buf in bufs && |bufs[a.buf]| == a.capa && a.len <= a.capa)
    requires a.Own? ==> forall j :: j in arrs && !arrs[j].Embed? ==> arrs[j].buf != a.buf
    ensures var r := arrs[k].root;
            && r in arrs && arrs[r].Root? && 1 <= arrs[r].num
            && var arrs' := if arrs[r].num == 1 then arrs[k := a] - {r}
                            else arrs[k := a][r := arrs[r].(num := arrs[r].num - 1)];
               var bufs' := if arrs[r].num == 1 then bufs - {arrs[r].buf} else bufs;
               && Consistent(arrs', bufs')
               && ViewOf(arrs', bufs') == ViewOf(arrs, bufs)[k := Elements(a, bufs)]
  {
    hide Cells, Separate;
    var r := arrs[k].root;
    assert Fits(arrs, bufs, k) && Fits(arrs, bufs, r);
    assert k in Sharers(arrs, r);
    CardinalityOfSubset({k}, Sharers(arrs, r));
    SharersUpdate(arrs, k, a, r);
    hide Sharers, Fits, Consistent;
    if arrs[r].num == 1 {
      assert |Sharers(arrs[k := a], r)| == 0;
      FreeRoot(arrs, bufs, k, a, r);
    } else {
      CountDown(arrs, bufs, k, a, r);
    }
  }

  /** The root of a view that leaves counts one less. */
  lemma CountDown(arrs: Arrays, bufs: Buffers, k: nat, a: RArray, r: nat)
    requires Consistent(arrs, bufs) && k in arrs && arrs[k].Shared? && arrs[k].root == r && r in arrs && arrs[r].Root?
    requires a.Embed? ==> |a.slots| == EMBED_MAX && a.len <= EMBED_MAX
    requires a.Embed? || (a.Own? && a.buf in bufs && |bufs[a.buf]| == a.capa && a.len <= a.capa)
    requires a.Own? ==> forall j :: j in arrs && !arrs[j].Embed? ==> arrs[j].buf != a.buf
    requires |Sharers(arrs[k := a], r)| <= arrs[r].num - 1
    ensures var arrs' := arrs[k := a][r := arrs[r].(num := arrs[r].num - 1)];
            Consistent(arrs', bufs) && ViewOf(arrs', bufs) == ViewOf(arrs, bufs)[k := Elements(a, bufs)]
  {
    hide Cells, Separate, Sharers;
    var arrs1 := arrs[k := a];
    var arrs' := arrs1[r := arrs[r].(num := arrs[r].num - 1)];
    assert Fits(arrs, bufs, r);
    SharersSame(arrs1, arrs', r);
    forall j | j in arrs' ensures Fits(arrs', bufs, j) {
      assert Fits(arrs, bufs, j);
      if j != r { SharersSame(arrs, arrs', j); }
    }
    CountedDown(arrs, k, r, a);
  }

  lemma CountedDown(arrs: Arrays, k: nat, r: nat, a: RArray)
    requires Separate(arrs) && k in arrs && arrs[k].Shared? && r in arrs && arrs[r].Root?
    requires a.Embed? || a.Own?
    requires a.Own? ==> forall j :: j in arrs && !arrs[j].Embed? ==> arrs[j].buf != a.buf
    ensures Separate(arrs[k := a][r := arrs[r].(num := arrs[r].num - 1)])
  {
  }

  function WithLen(a: RArray, n: nat): RArray {
    match a
    case Embed(slots, _) => Embed(slots, n)
    case Own(buf, _, capa) => Own(buf, n, capa)
    case Shared(buf, off, _, root) => Shared(buf, off, n, root)
    case Root(buf, _, num) => Root(buf, n, num)
  }

  /** ARY_CAPA on an array that may be written. */
  function Capa(a: RArray): nat
    requires !a.Shared?
  {
    match a
    case Embed(_, _) => EMBED_MAX
    case Own(_, _, capa) => capa
    case Root(_, len, _) => len
  }

  /** A buffer of n cells that starts with as much of s as fits; the rest is whatever was there. */
  function Fill(s: seq<Value>, n: nat, junk: Value): (t: seq<Value>)
    ensures |t| == n && forall i :: 0 <= i < n && i < |s| ==> t[i] == s[i]
  {
    seq(n, i requires 0 <= i < n => if i < |s| then s[i] else junk)
  }

  function Nils(n: nat): (t: seq<Value>)
    ensures |t| == n && forall i :: 0 <= i < n ==> t[i] == NIL
  {
    seq(n, _ => NIL)
  }

  /** MEMMOVE and MEMCPY of t to cell i on. */
  function Put(s: seq<Value>, i: nat, t: seq<Value>): (r: seq<Value>)
    requires i + |t| <= |s|
    ensures |r| == |s|
  {
    s[..i] + t + s[i + |t|..]
  }

  /** Padding up to beg and then t, behind the elements s that the cells start with. */
  lemma PutTwice(cells: seq<Value>, s: seq<Value>, beg: nat, t: seq<Value>)
    requires |s| <= beg && beg + |t| <= |cells| && cells[..|s|] == s
    ensures var padded := Put(cells, |s|, Nils(beg - |s|));
            && padded[..|s|] == s
            && (if t == [] then padded else Put(padded, beg, t))[..beg + |t|] == s + Nils(beg - |s|) + t
  {
    var padded := Put(cells, |s|, Nils(beg - |s|));
    assert padded[..beg] == s + Nils(beg - |s|);
    if t != [] { assert Put(padded, beg, t)[..beg + |t|] == padded[..beg] + t; }
  }

  /** Cells that start with the elements s, once val has been stored. */
  lemma StoredCells(cells: seq<Value>, s: seq<Value>, idx: nat, val: Value)
    requires idx < |cells| && |s| <= |cells| && cells[..|s|] == s
    ensures var c := if idx > |s| then Put(cells, |s|, Nils(idx - |s| + 1)) else cells;
            c[idx := val][..if idx >= |s| then idx + 1 else |s|] == Stored(s, idx, val)
  {
    var c := if idx > |s| then Put(cells, |s|, Nils(idx - |s| + 1)) else cells;
    if idx >= |s| {
      assert c[..idx] == s + Nils(idx - |s|);
      assert c[idx := val][..idx + 1] == c[..idx] + [val];
    }
  }

  lemma WindowIs(s: seq<Value>, off: nat, len: nat)
    requires off + len <= |s|
    ensures s[off..off + len] == s[off..][..len]
  {
  }

  class Heap {
    var arrays: Arrays
    var bufs: Buffers
    var next: nat     // every address in use is below this
    var junk: Value   // what uninitialised memory happens to hold

    ghost predicate Valid()
      reads this
    {
      && Consistent(arrays, bufs)
      && (forall k :: k in arrays ==> k < next)
      && (forall b :: b in bufs ==> b < next)
    }

    ghost function View(): View
      reads this
    {
      ViewOf(arrays, bufs)
    }

    /** An array a program can name. */
    predicate IsArray(k: nat)
      reads this
    {
      k in arrays && !arrays[k].Root?
    }

    constructor ()
      ensures Valid() && View() == map[]
    {
      arrays, bufs, next, junk := map[], map[], 0, 0;
    }

    function Length(k: nat): nat
      requires k in arrays
      reads this
    {
      arrays[k].len
    }

    /** ary_new: an empty array, embedded or with a buffer. */
    method New(len: nat) returns (k: nat)
      requires Valid()
      modifies this
      ensures Valid() && k !in old(arrays) && k in arrays && (arrays[k].Embed? || arrays[k].Own?)
      ensures View() == old(View())[k := []] && arrays[k].len == 0 && Capa(arrays[k]) >= len
      ensures arrays == old(arrays)[k := arrays[k]]
    {
      hide Fits, Separate, Cells;
      k := next;
      next := next + 2;
      if len > EMBED_MAX {
        ghost var a := Own(k + 1, 0, len);
        SetOwn(arrays, bufs, k, a, bufs[k + 1 := Fill([], len, junk)]);
        bufs := bufs[k + 1 := Fill([], len, junk)];
        arrays := arrays[k := Own(k + 1, 0, len)];
        ElementsAre(arrays[k], bufs);
      } else {
        SetOwn(arrays, bufs, k, Embed(Fill([], EMBED_MAX, junk), 0), bufs);
        arrays := arrays[k := Embed(Fill([], EMBED_MAX, junk), 0)];
        ElementsAre(arrays[k], bufs);
      }
    }

    /** ary_resize_capa: moves between embedded and owned storage or reallocates. */
    method ResizeCapa(k: nat, capacity: nat)
      requires Valid() && k in arrays && (arrays[k].Embed? || arrays[k].Own?) && arrays[k].len <= capacity
      modifies this
      ensures Valid() && View() == old(View())
      ensures k in arrays && arrays == old(arrays)[k := arrays[k]]
      ensures (arrays[k].Embed? || arrays[k].Own?) && arrays[k].len == old(arrays[k].len)
      ensures Capa(arrays[k]) >= capacity
    {
      hide Fits, Separate, Cells;
      var a := arrays[k];
      OwnFacts(arrays, bufs, k);
      var cells := Cells(a, bufs);
      ElementsAre(a, bufs);
      if capacity > EMBED_MAX {
        var grown := Fill(cells, capacity, junk);
        if a.Embed? {
          var b := next;
          next := next + 1;
          SetOwn(arrays, bufs, k, Own(b, a.len, capacity), bufs[b := grown]);
          bufs := bufs[b := grown];
          arrays := arrays[k := Own(b, a.len, capacity)];
        } else {
          SetOwn(arrays, bufs, k, Own(a.buf, a.len, capacity), bufs[a.buf := grown]);
          bufs := bufs[a.buf := grown];
          arrays := arrays[k := Own(a.buf, a.len, capacity)];
        }
        ElementsAre(arrays[k], bufs);
        assert grown[..a.len] == cells[..a.len];
      } else if !a.Embed? {
        var slots := Fill(cells[..a.len], EMBED_MAX, junk);
        SetOwn(arrays, bufs, k, Embed(slots, a.len), bufs - {a.buf});
        arrays := arrays[k := Embed(slots, a.len)];
        bufs := bufs - {a.buf};
        ElementsAre(arrays[k], bufs);
        assert slots[..a.len] == cells[..a.len];
      }
      ViewSame(old(View()), k, View());
    }

    /** Writes to an array that has its storage to itself. */
    method SetCells(k: nat, cells: seq<Value>, len: nat)
      requires Valid() && k in arrays && (arrays[k].Embed? || arrays[k].Own?)
      requires |cells| == |Cells(arrays[k], bufs)| && len <= |cells|
      modifies this
      ensures Valid() && View() == old(View())[k := cells[..len]]
      ensures k in arrays && arrays == old(arrays)[k := arrays[k]]
      ensures (arrays[k].Embed? || arrays[k].Own?) && arrays[k].len == len && Capa(arrays[k]) == old(Capa(arrays[k]))
      ensures Cells(arrays[k], bufs) == cells
    {
      hide Fits, Separate, Cells;
      var a := arrays[k];
      OwnFacts(arrays, bufs, k);
      ElementsAre(a, bufs);
      if a.Embed? {
        SetOwn(arrays, bufs, k, Embed(cells, len), bufs);
        arrays := arrays[k := Embed(cells, len)];
      } else {
        SetOwn(arrays, bufs, k, Own(a.buf, len, a.capa), bufs[a.buf := cells]);
        bufs := bufs[a.buf := cells];
        arrays := arrays[k := Own(a.buf, len, a.capa)];
      }
      ElementsAre(arrays[k], bufs);
    }

    /** rb_ary_decrement_share and FL_UNSET_SHARED, the array taking storage a of its own. */
    method Unshare(k: nat, a: RArray)
      requires Valid() && k in arrays && arrays[k].Shared?
      requires a.Embed? ==> |a.slots| == EMBED_MAX && a.len <= EMBED_MAX
      requires a.Embed? || (a.Own? && a.buf in bufs && |bufs[a.buf]| == a.capa && a.len <= a.capa)
      requires a.Own? ==> forall j :: j in arrays && !arrays[j].Embed? ==> arrays[j].buf != a.buf
      modifies this
      ensures Valid() && View() == old(View())[k := old(Elements(a, bufs))]
      ensures k in arrays && arrays[k] == a && next == old(next)
      ensures forall j :: j in old(arrays) && j != k && !old(arrays)[j].Root? ==>
              j in arrays && arrays[j] == old(arrays)[j]
    {
      hide Fits, Separate, Cells;
      DropSharer(arrays, bufs, k, a);
      var r := arrays[k].root;
      var num := arrays[r].num - 1;
      var root := arrays[r];
      if num == 0 {
        arrays := arrays[k := a] - {r};
        bufs := bufs - {root.buf};
      } else if num > 0 {
        arrays := arrays[k := a][r := root.(num := num)];
      }
    }

    /** The elements of a view copied into the object itself. */
    method CopyEmbedded(k: nat)
      requires Valid() && k in arrays && arrays[k].Shared? && arrays[k].len <= EMBED_MAX
      modifies this
      ensures Valid() && View() == old(View())[k := old(Elements(arrays[k], bufs))]
      ensures k in arrays && arrays[k].Embed? && arrays[k].len == old(arrays[k].len)
    {
      hide Fits, Separate, Cells, Elements, ViewOf, Consistent;
      var a := arrays[k];
      OwnFacts(arrays, bufs, k);
      ElementsAre(a, bufs);
      var elems := bufs[a.buf][a.off..a.off + a.len];
      WindowIs(bufs[a.buf], a.off, a.len);
      var slots := Fill(elems, EMBED_MAX, junk);
      assert slots[..a.len] == elems;
      ElementsAre(Embed(slots, a.len), bufs);
      Unshare(k, Embed(slots, a.len));
    }

    /** The elements of a view copied into a buffer of its own. */
    method CopyOwned(k: nat)
      requires Valid() && k in arrays && arrays[k].Shared?
      modifies this
      ensures Valid() && View() == old(View())[k := old(Elements(arrays[k], bufs))]
      ensures k in arrays && arrays[k].Own? && arrays[k].len == old(arrays[k].len)
    {
      hide Fits, Separate, Cells, Elements, ViewOf, Consistent;
      var a := arrays[k];
      OwnFacts(arrays, bufs, k);
      ElementsAre(a, bufs);
      var elems := bufs[a.buf][a.off..a.off + a.len];
      WindowIs(bufs[a.buf], a.off, a.len);
      var b := next;
      next := next + 1;
      NewBuffer(arrays, bufs, b, elems);
      bufs := bufs[b := elems];
      ElementsAre(Own(b, a.len, a.len), bufs);
      assert elems[..a.len] == elems;
      Unshare(k, Own(b, a.len, a.len));
    }

    /** rb_ary_modify: gives a viewing array storage of its own. */
    method Modify(k: nat)
      requires Valid() && IsArray(k)
      modifies this
      ensures Valid() && View() == old(View())
      ensures k in arrays && (arrays[k].Embed? || arrays[k].Own?) && arrays[k].len == old(arrays[k].len)
    {
      hide Fits, Separate, Cells, Elements, Consistent;
      if arrays[k].Shared? {
        ghost var view, elems := View(), Elements(arrays[k], bufs);
        assert k in view && view[k] == elems;
        hide ViewOf;
        if Length(k) <= EMBED_MAX { CopyEmbedded(k); } else { CopyOwned(k); }
        ViewSame(view, k, View());
      }
    }

    /** Storage of the array's own, with room for an element at idx. */
    method GrowFor(k: nat, idx: nat)
      requires Valid() && IsArray(k)
      modifies this
      ensures Valid() && View() == old(View())
      ensures k in arrays && (arrays[k].Embed? || arrays[k].Own?) && arrays[k].len == old(arrays[k].len)
      ensures idx < Capa(arrays[k])
    {
      hide Fits, Separate, Cells, ViewOf, Consistent, Elements;
      Modify(k);
      if idx >= Capa(arrays[k]) {
        var newCapa := Capa(arrays[k]) / 2;
        if newCapa < DEFAULT_SIZE { newCapa := DEFAULT_SIZE; }
        newCapa := newCapa + idx;
        ResizeFits(arrays, bufs, k);
        ResizeCapa(k, newCapa);
      }
    }

    /** rb_ary_store: a negative index counts from the end; growth pads with nil. */
    method Store(k: nat, idx0: int, val: Value) returns (ok: bool)
      requires Valid() && IsArray(k)
      modifies this
      ensures Valid() && k in old(View())
      ensures var s := old(View())[k];
              && (ok <==> -|s| <= idx0)
              && View() == if ok then old(View())[k := Stored(s, if idx0 < 0 then idx0 + |s| else idx0, val)]
                  else old(View())
    {
      hide Fits, Separate, Cells, ViewOf, Consistent, Elements;
      InView(arrays, bufs, k);
      var idx := idx0;
      if idx < 0 {
        idx := idx + Length(k);
        if idx < 0 { return false; }
      }
      ok := true;
      GrowFor(k, idx);
      InView(arrays, bufs, k);
      ghost var s := View()[k];
      var len := Length(k);
      var cells := Cells(arrays[k], bufs);
      CellsAre(arrays, bufs, k);
      StoredCells(cells, s, idx, val);
      hide Put, Stored;
      if idx > len {
        cells := Put(cells, len, Nils(idx - len + 1));
        SetCells(k, cells, len);
      }
      if idx >= len {
        SetCells(k, cells, idx + 1);
      }
      cells := cells[idx := val];
      SetCells(k, cells, Length(k));
    }

    /** rb_ary_push */
    method Push(k: nat, item: Value)
      requires Valid() && IsArray(k)
      modifies this
      ensures Valid() && k in old(View()) && View() == old(View())[k := old(View())[k] + [item]]
    {
      InView(arrays, bufs, k);
      ghost var s := View()[k];
      var _ := Store(k, Length(k), item);
      assert s + Nils(0) + [item] == s + [item];
    }

    /** ARY_SET_LEN: fewer elements, wherever they are stored. */
    method Shrink(k: nat, n: nat)
      requires Valid() && IsArray(k) && n <= arrays[k].len
      modifies this
      ensures Valid() && k in old(View()) && View() == old(View())[k := old(View())[k][..n]]
      ensures arrays == old(arrays)[k := WithLen(old(arrays)[k], n)] && bufs == old(bufs)
      ensures Cells(arrays[k], bufs) == old(Cells(arrays[k], bufs))
    {
      ShrinkOne(arrays, bufs, k, n);
      arrays := arrays[k := WithLen(arrays[k], n)];
    }

    /** Moves a view's window to start later: ARY_INCREASE_PTR and ARY_INCREASE_LEN. */
    method Advance(k: nat, n: nat)
      requires Valid() && k in arrays && arrays[k].Shared? && n <= arrays[k].len
      modifies this
      ensures Valid() && k in old(View()) && View() == old(View())[k := old(View())[k][n..]]
      ensures k in arrays && arrays[k].Shared?
    {
      hide Fits, Separate, Cells, Consistent, Elements, ViewOf;
      InView(arrays, bufs, k);
      OwnFacts(arrays, bufs, k);
      var a := arrays[k];
      var a' := a.(off := a.off + n, len := a.len - n);
      ElementsAre(a, bufs);
      ElementsAre(a', bufs);
      WindowMoved(bufs[a.buf], a.off, a.len, n);
      MoveView(arrays, bufs, k, a'.off, a'.len);
      arrays := arrays[k := a'];
    }

    /** rb_ary_pop */
    method Pop(k: nat) returns (v: Value)
      requires Valid() && IsArray(k)
      modifies this
      ensures Valid() && k in old(View())
      ensures var s := old(View())[k];
              if s == [] then v == NIL && View() == old(View())
              else v == s[|s| - 1] && View() == old(View())[k := s[..|s| - 1]]
    {
      hide Fits, Separate, Cells, ViewOf;
      InView(arrays, bufs, k);
      if Length(k) == 0 { return NIL; }
      if arrays[k].Own? && Length(k) * 3 < Capa(arrays[k]) && Capa(arrays[k]) > DEFAULT_SIZE {
        ResizeCapa(k, Length(k) * 2);
      }
      var n := Length(k) - 1;
      InView(arrays, bufs, k);
      OwnFacts(arrays, bufs, k);
      ElementsAre(arrays[k], bufs);
      Shrink(k, n);
      v := Cells(arrays[k], bufs)[n];
    }

    /** ary_make_shared: the root whose buffer the array views from now on. */
    method MakeShared(k: nat) returns (r: nat)
      requires Valid() && k in arrays && (arrays[k].Own? || arrays[k].Shared?)
      modifies this
      ensures Valid() && View() == old(View())
      ensures k in arrays && arrays[k].Shared? && arrays[k].root == r && r in arrays && arrays[r].Root?
      ensures arrays[k].len == old(arrays[k].len) && bufs == old(bufs)
      ensures forall j :: j in old(arrays) && j != k ==> j in arrays && arrays[j] == old(arrays[j])
      ensures next >= old(next) && forall j :: j in arrays ==> j in old(arrays) || j >= old(next)
    {
      hide Fits, Separate, Cells;
      var a := arrays[k];
      OwnFacts(arrays, bufs, k);
      if a.Shared? { return a.root; }
      r := next;
      next := next + 1;
      BecomeShared(arrays, bufs, k, r);
      arrays := arrays[r := Root(a.buf, a.len, 1)][k := Shared(a.buf, 0, a.len, r)];
    }

    /** rb_ary_set_shared: an array that holds no buffer becomes one more view. */
    method SetShared(k: nat, r: nat, off: nat, len: nat)
      requires Valid() && k < next && (k in arrays ==> arrays[k].Embed?)
      requires r in arrays && arrays[r].Root? && off + len <= arrays[r].len && r != k
      modifies this
      ensures Valid() && View() == old(View())[k := old(Elements(Shared(arrays[r].buf, off, len, r), bufs))]
      ensures k in arrays && arrays[k].Shared?
      ensures forall j :: j in old(arrays) && j != k && j != r ==> j in arrays && arrays[j] == old(arrays[j])
    {
      hide Fits, Separate, Cells;
      AddSharer(arrays, bufs, k, r, off, len);
      var root := arrays[r];
      arrays := arrays[r := root.(num := root.num + 1)][k := Shared(root.buf, off, len, r)];
    }

    /** rb_ary_shift */
    method Shift(k: nat) returns (top: Value)
      requires Valid() && IsArray(k)
      modifies this
      ensures Valid() && k in old(View())
      ensures var s := old(View())[k];
              if s == [] then top == NIL && View() == old(View())
              else top == s[0] && View() == old(View())[k := s[1..]]
    {
      hide Fits, Separate, Cells, ViewOf;
      InView(arrays, bufs, k);
      if Length(k) == 0 { return NIL; }
      OwnFacts(arrays, bufs, k);
      ElementsAre(arrays[k], bufs);
      top := Cells(arrays[k], bufs)[0];
      if !arrays[k].Shared? {
        var cells, len := Cells(arrays[k], bufs), Length(k);
        if len < DEFAULT_SIZE {
          ghost var s := View()[k];
          cells := Put(cells, 0, cells[1..len]);
          assert cells[..len - 1] == s[1..];
          SetCells(k, cells, len - 1);
          return;
        }
        ghost var s := View()[k];
        cells := cells[0 := NIL];
        assert cells[..len][1..] == s[1..];
        CellsAre(arrays, bufs, k);
        SetCells(k, cells, len);
        var _ := MakeShared(k);
      }
      InView(arrays, bufs, k);
      Advance(k, 1);
    }

    /** A new array at r with a short part of another's elements in itself. */
    method PartEmbedded(k: nat, off: nat, len: nat, r: nat)
      requires Valid() && IsArray(k) && off + len <= arrays[k].len && len <= EMBED_MAX && r !in arrays && r < next
      modifies this
      ensures Valid() && k in old(View()) && View() == old(View())[r := old(View())[k][off..off + len]]
      ensures r in arrays && arrays == old(arrays)[r := arrays[r]] && arrays[r].Embed? && arrays[r].len == len
    {
      hide Fits, Separate, Cells, ViewOf, Elements, Consistent;
      InView(arrays, bufs, k);
      OwnFacts(arrays, bufs, k);
      ElementsAre(arrays[k], bufs);
      ghost var s := View()[k];
      assert s == Cells(arrays[k], bufs)[..arrays[k].len];
      var part := Cells(arrays[k], bufs)[off..off + len];
      assert part == s[off..off + len];
      var slots := Fill(part, EMBED_MAX, junk);
      assert slots[..len] == part;
      SetOwn(arrays, bufs, r, Embed(slots, len), bufs);
      arrays := arrays[r := Embed(slots, len)];
      ElementsAre(arrays[r], bufs);
    }

    /** A new array at r that views part of another's elements. */
    method PartShared(k: nat, off: nat, len: nat, r: nat)
      requires Valid() && IsArray(k) && off + len <= arrays[k].len && len > EMBED_MAX && r !in arrays && r < next
      modifies this
      ensures Valid() && k in old(View()) && View() == old(View())[r := old(View())[k][off..off + len]]
      ensures k in arrays && arrays[k].Shared? && arrays[k].len == old(arrays[k].len) && r in arrays
      ensures arrays[r].Shared?
    {
      hide Fits, Separate, Cells, ViewOf, Elements, Consistent;
      InView(arrays, bufs, k);
      OwnFacts(arrays, bufs, k);
      ghost var s := View()[k];
      var root := MakeShared(k);
      OwnFacts(arrays, bufs, k);
      InView(arrays, bufs, k);
      var a := arrays[k];
      InsideView(a, bufs, off, len, s);
      SetShared(r, root, a.off + off, len);
    }

    /** ary_make_partial: a new array with part of another's elements, embedded when short, a view
        of the same buffer otherwise. */
    method MakePartial(k: nat, off: nat, len: nat) returns (r: nat)
      requires Valid() && IsArray(k) && off + len <= arrays[k].len
      modifies this
      ensures Valid() && k in old(View()) && r !in old(View()) && r != k
      ensures View() == old(View())[r := old(View())[k][off..off + len]]
      ensures IsArray(k) && arrays[k].len == old(arrays[k].len)
      ensures IsArray(r) && arrays[r].len == len
      ensures len <= EMBED_MAX ==> arrays[k] == old(arrays[k])
      ensures len > EMBED_MAX ==> arrays[k].Shared?
    {
      hide Fits, Separate, Cells, ViewOf, Elements, Consistent;
      InView(arrays, bufs, k);
      r := next;
      next := next + 1;
      InView(arrays, bufs, r);
      if len <= EMBED_MAX { PartEmbedded(k, off, len, r); } else { PartShared(k, off, len, r); }
      InView(arrays, bufs, r);
      InView(arrays, bufs, k);
    }

    /** rb_ary_subseq: nothing for a start or length out of range, otherwise the part that exists. */
    method Subseq(k: nat, beg: int, len: int) returns (found: bool, r: nat)
      requires Valid() && IsArray(k)
      modifies this
      ensures Valid() && k in old(View())
      ensures var s := old(View())[k];
              && (found <==> 0 <= beg <= |s| && 0 <= len)
              && (found ==> r !in old(View()) &&
                            View() == old(View())[r := s[beg..if beg + len <= |s| then beg + len else |s|]])
              && (!found ==> View() == old(View()))
    {
      hide Fits, Separate, Cells, ViewOf;
      InView(arrays, bufs, k);
      found, r := false, 0;
      if beg > Length(k) { return; }
      if beg < 0 || len < 0 { return; }
      found := true;
      var n := if Length(k) < len || Length(k) < beg + len then Length(k) - beg else len;
      ghost var s := View()[k];
      assert s[beg..beg + n] == s[beg..if beg + len <= |s| then beg + len else |s|];
      if n == 0 {
        assert s[beg..beg + n] == [];
        r := New(0);
        InView(old(arrays), old(bufs), r);
      } else {
        r := MakePartial(k, beg, n);
      }
    }

    /** rb_ary_shift_m with a count: the first n elements become a new array. */
    method ShiftM(k: nat, n0: int) returns (ok: bool, r: nat)
      requires Valid() && IsArray(k)
      modifies this
      ensures Valid() && k in old(View()) && (ok <==> n0 >= 0)
      ensures !ok ==> View() == old(View())
      ensures ok ==> r !in old(View())
      ensures ok ==>
                var s := old(View())[k];
                var n := if n0 > |s| then |s| else n0;
                View() == old(View())[r := s[..n]][k := s[n..]]
    {
      hide Fits, Separate, Cells, ViewOf;
      InView(arrays, bufs, k);
      ghost var s := View()[k];
      var n := if n0 > Length(k) then Length(k) else n0;
      if n < 0 { return false, 0; }
      ok := true;
      r := MakePartial(k, 0, n);
      assert s[0..0 + n] == s[..n];
      InView(arrays, bufs, k);
      if arrays[k].Shared? {
        Advance(k, n);
      } else {
        CellsAre(arrays, bufs, k);
        var len, cells := Length(k), Cells(arrays[k], bufs);
        cells := Put(cells, 0, cells[n..len]);
        assert cells[..len - n] == s[n..];
        SetCells(k, cells, len - n);
      }
    }

    /** rb_ary_pop_m with a count: the last n elements become a new array. */
    method PopM(k: nat, n0: int) returns (ok: bool, r: nat)
      requires Valid() && IsArray(k)
      modifies this
      ensures Valid() && k in old(View()) && (ok <==> n0 >= 0)
      ensures !ok ==> View() == old(View())
      ensures ok ==> r !in old(View())
      ensures ok ==>
                var s := old(View())[k];
                var n := if n0 > |s| then |s| else n0;
                View() == old(View())[r := s[|s| - n..]][k := s[..|s| - n]]
    {
      hide Fits, Separate, Cells, ViewOf;
      InView(arrays, bufs, k);
      ghost var s := View()[k];
      var n := if n0 > Length(k) then Length(k) else n0;
      if n < 0 { return false, 0; }
      ok := true;
      r := MakePartial(k, Length(k) - n, n);
      InView(arrays, bufs, k);
      assert s[|s| - n..|s| - n + n] == s[|s| - n..];
      Shrink(k, Length(k) - n);
    }

    /** rb_ary_replace: the copy drops what it had and takes the other's elements, by value when
        short, by sharing otherwise. */
    method Replace(copy: nat, orig: nat)
      requires Valid() && IsArray(copy) && IsArray(orig)
      modifies this
      ensures Valid() && orig in old(View()) && View() == old(View())[copy := old(View())[orig]]
    {
      hide Fits, Separate, Cells, ViewOf;
      InView(arrays, bufs, orig);
      InView(arrays, bufs, copy);
      if copy == orig {
        ViewSame(View(), copy, View()[copy := View()[orig]]);
        return;
      }
      OwnFacts(arrays, bufs, orig);
      ElementsAre(arrays[orig], bufs);
      if Length(orig) <= EMBED_MAX {
        var len := Length(orig);
        var slots := Fill(Cells(arrays[orig], bufs)[..len], EMBED_MAX, junk);
        assert slots[..len] == View()[orig];
        DropStorage(copy, slots, len);
      } else {
        var root := MakeShared(orig);
        OwnFacts(arrays, bufs, orig);
        InView(arrays, bufs, orig);
        var a := arrays[orig];
        ghost var s := View()[orig];
        InView(arrays, bufs, copy);
        DropStorage(copy, Fill([], EMBED_MAX, junk), 0);
        OwnFacts(arrays, bufs, orig);
        InView(arrays, bufs, orig);
        InView(arrays, bufs, copy);
        assert View()[orig] == s;
        SetShared(copy, root, a.off, a.len);
      }
    }

    /** What rb_ary_replace does with the storage the copy had: freed if owned, unshared if viewed;
        the copy becomes embedded. */
    method DropStorage(k: nat, slots: seq<Value>, len: nat)
      requires Valid() && IsArray(k) && |slots| == EMBED_MAX && len <= EMBED_MAX
      modifies this
      ensures Valid() && View() == old(View())[k := slots[..len]]
      ensures k in arrays && arrays[k] == Embed(slots, len) && next == old(next)
      ensures forall j :: j in old(arrays) && j != k && !old(arrays)[j].Root? ==>
              j in arrays && arrays[j] == old(arrays)[j]
    {
      hide Fits, Separate, Cells, ViewOf;
      var a := arrays[k];
      OwnFacts(arrays, bufs, k);
      ElementsAre(Embed(slots, len), bufs);
      if a.Shared? {
        Unshare(k, Embed(slots, len));
      } else {
        var rest := if a.Own? then bufs - {a.buf} else bufs;
        SetOwn(arrays, bufs, k, Embed(slots, len), rest);
        ElementsAre(Embed(slots, len), rest);
        arrays := arrays[k := Embed(slots, len)];
        bufs := rest;
      }
    }

    /** rb_ary_splice: replaces len elements from beg on by another array's (possibly its own), or
        by nothing. */
    method Splice(k: nat, beg0: int, len0: int, rpl: nat, hasRpl: bool) returns (ok: bool)
      requires Valid() && IsArray(k) && (hasRpl ==> IsArray(rpl))
      modifies this
      ensures Valid() && k in old(View()) && (hasRpl ==> rpl in old(View()))
      ensures var s := old(View())[k];
              var t := if hasRpl then old(View())[rpl] else [];
              && (ok <==> len0 >= 0 && -|s| <= beg0)
              && View() == if ok then old(View())[k := Spliced(s, if beg0 < 0 then beg0 + |s| else beg0, len0, t)]
                  else old(View())
    {
      hide Fits, Separate, Cells, ViewOf, Spliced;
      InView(arrays, bufs, k);
      InView(arrays, bufs, rpl);
      var beg, len := beg0, len0;
      if len < 0 { return false; }
      if beg < 0 {
        beg := beg + Length(k);
        if beg < 0 { return false; }
      }
      ok := true;
      if Length(k) < len || Length(k) < beg + len {
        len := Length(k) - beg;
      }
      var rlen := if hasRpl then Length(rpl) else 0;
      ghost var s, t := View()[k], if hasRpl then View()[rpl] else [];
      Modify(k);
      InView(arrays, bufs, k);
      InView(arrays, bufs, rpl);
      if beg >= Length(k) {
        SplicePast(k, beg, rpl, hasRpl, rlen);
        SplicedPast(s, beg, len0, t);
      } else {
        SpliceInside(k, beg, len, rpl, hasRpl, rlen);
        SplicedInside(s, beg, len0, len, t);
      }
    }

    /** rb_ary_splice at or past the end; the replacement may be the array itself. */
    method SplicePast(k: nat, beg: nat, rpl: nat, hasRpl: bool, rlen: nat)
      requires Valid() && k in arrays && (arrays[k].Embed? || arrays[k].Own?) && arrays[k].len <= beg
      requires if hasRpl then IsArray(rpl) && rlen == arrays[rpl].len else rlen == 0
      modifies this
      ensures Valid() && k in old(View()) && (hasRpl ==> rpl in old(View()))
      ensures var s, t := old(View())[k], if hasRpl then old(View())[rpl] else [];
              View() == old(View())[k := s + Nils(beg - |s|) + t]
    {
      hide Fits, Separate, Cells, ViewOf, Consistent, Elements;
      InView(arrays, bufs, k);
      InView(arrays, bufs, rpl);
      ghost var v := View();
      ghost var s, t := v[k], if hasRpl then v[rpl] else [];
      var n := Length(k);
      if beg + rlen >= Capa(arrays[k]) {
        ResizeCapa(k, beg + rlen);
      }
      CellsAre(arrays, bufs, k);
      InView(arrays, bufs, k);
      ghost var cells0 := Cells(arrays[k], bufs);
      var cells := Put(Cells(arrays[k], bufs), n, Nils(beg - n));
      PutTwice(cells0, s, beg, t);
      hide Put, Stored;
      SetCells(k, cells, n);
      assert View() == v by { ViewSame(v, k, View()); }
      if rlen > 0 {
        var src := FirstCells(rpl, rlen);
        cells := Put(cells, beg, src);
      }
      SetCells(k, cells, beg + rlen);
    }

    /** What RARRAY_PTR(k) points at. */
    method FirstCells(k: nat, n: nat) returns (src: seq<Value>)
      requires Valid() && IsArray(k) && n == arrays[k].len
      ensures k in View() && src == View()[k] && |src| == n
      ensures arrays[k].Embed? || arrays[k].Own? ==> n <= |Cells(arrays[k], bufs)| && src == Cells(arrays[k], bufs)[..n]
    {
      InView(arrays, bufs, k);
      OwnFacts(arrays, bufs, k);
      ElementsAre(arrays[k], bufs);
      src := Cells(arrays[k], bufs)[..n];
    }

    /** rb_ary_splice inside the array: the tail is moved first, then the replacement is copied in.
        When the array is spliced into itself the copy still reads its old elements. */
    method SpliceInside(k: nat, beg: nat, len: nat, rpl: nat, hasRpl: bool, rlen: nat)
      requires Valid() && k in arrays && (arrays[k].Embed? || arrays[k].Own?) && beg < arrays[k].len
      requires beg + len <= arrays[k].len
      requires if hasRpl then IsArray(rpl) && rlen == arrays[rpl].len else rlen == 0
      modifies this
      ensures Valid() && k in old(View()) && (hasRpl ==> rpl in old(View()))
      ensures var s, t := old(View())[k], if hasRpl then old(View())[rpl] else [];
              View() == old(View())[k := s[..beg] + t + s[beg + len..]]
    {
      hide Fits, Separate, Cells, ViewOf, Consistent, Elements;
      InView(arrays, bufs, k);
      InView(arrays, bufs, rpl);
      ghost var v := View();
      ghost var s, t := v[k], if hasRpl then v[rpl] else [];
      var n := Length(k);
      var alen := n + rlen - len;
      if alen >= Capa(arrays[k]) {
        CellsAre(arrays, bufs, k);
        ResizeCapa(k, alen);
      }
      CellsAre(arrays, bufs, k);
      InView(arrays, bufs, k);
      InView(arrays, bufs, rpl);
      var cells := Cells(arrays[k], bufs);
      MoveTail(s, cells, beg, len, rlen);
      if len != rlen {
        cells := Put(cells, beg + rlen, cells[beg + len..n]);
        SetCells(k, cells, alen);
      }
      CopyReplacement(k, beg, len, rpl, hasRpl, rlen, alen, s, cells, v);
    }

    /** MEMCPY of the replacement, which may be the array itself, into the gap; the length follows. */
    method CopyReplacement(k: nat, beg: nat, len: nat, rpl: nat, hasRpl: bool, rlen: nat, alen: nat,
                           ghost s: seq<Value>, cells0: seq<Value>, ghost v: View)
      requires Valid() && k in arrays && (arrays[k].Embed? || arrays[k].Own?) && Cells(arrays[k], bufs) == cells0
      requires hasRpl ==> IsArray(rpl) && rpl in v && |v[rpl]| == rlen && (rpl != k ==> arrays[rpl].len == rlen)
      requires !hasRpl ==> rlen == 0
      requires k in v && v[k] == s && (forall j :: j in View() <==> j in v) && forall j :: j in v && j != k ==>
               View()[j] == v[j]
      requires beg + len <= |s| && alen == |s| + rlen - len <= |cells0|
      requires cells0[..beg] == s[..beg] && cells0[beg + rlen..|s| + rlen - len] == s[beg + len..]
      requires hasRpl && rpl == k ==> rlen <= |cells0| && cells0[..rlen] == s
      modifies this
      ensures Valid() && View() == v[k := s[..beg] + (if hasRpl then v[rpl] else []) + s[beg + len..]]
    {
      hide Fits, Separate, Cells, ViewOf, Consistent, Elements;
      ghost var t := if hasRpl then v[rpl] else [];
      var cells := cells0;
      if rlen > 0 {
        var src;
        if rpl == k {
          src := cells[..rlen];  // RARRAY_PTR(rpl) is the array's own storage
        } else {
          InView(arrays, bufs, rpl);
          src := FirstCells(rpl, rlen);
        }
        cells := Put(cells, beg, src);
      }
      CopyIn(s, cells0, cells, beg, len, t);
      SetCells(k, cells, alen);
    }

    /** One operation of a program; an operation on an address that is no array does nothing. */
    method Execute(op: Op)
      requires Valid()
      modifies this
      ensures Valid() && Step(old(View()), op, View())
    {
      hide Fits, Separate, Cells, ViewOf, Spliced, Stored;
      NamesAll(arrays, bufs);
      match op
      case New(n) => var _ := New(n);
      case Push(k, v) => if IsArray(k) { Push(k, v); }
      case Pop(k) => if IsArray(k) { var _ := Pop(k); }
      case Shift(k) => if IsArray(k) { var _ := Shift(k); }
      case PopMany(k, n) =>
        if IsArray(k) {
          ghost var v := View();
          var ok, r := PopM(k, n);
          if ok {
            ghost var m := |v[k]| - if n > |v[k]| then |v[k]| else n;
            ghost var w: View := v[k := v[k][..m]];
            assert View() == w[r := v[k][m..]];
            AppearsAt(w, r, v[k][m..], View());
          }
        }
      case ShiftMany(k, n) =>
        if IsArray(k) {
          ghost var v := View();
          var ok, r := ShiftM(k, n);
          if ok {
            ghost var m := if n > |v[k]| then |v[k]| else n;
            ghost var w: View := v[k := v[k][m..]];
            assert View() == w[r := v[k][..m]];
            AppearsAt(w, r, v[k][..m], View());
          }
        }
      case Store(k, i, v) => if IsArray(k) { var _ := Store(k, i, v); }
      case Slice(k, b, l) => if IsArray(k) { var _, _ := Subseq(k, b, l); }
      case Replace(c, o) => if IsArray(c) && IsArray(o) { Replace(c, o); }
      case Splice(k, b, l, r) => if IsArray(k) && IsArray(r) { var _ := Splice(k, b, l, r, true); }
    }

    /** A whole program on any number of arrays: every step is a step on independent sequences. */
    method Run(ops: seq<Op>) returns (ghost trace: seq<View>)
      requires Valid()
      modifies this
      ensures Valid() && |trace| == |ops| + 1 && trace[0] == old(View()) && trace[|ops|] == View()
      ensures forall i :: 0 <= i < |ops| ==> Step(trace[i], ops[i], trace[i + 1])
    {
      hide Step, Consistent;
      trace := [View()];
      for i := 0 to |ops|
        invariant Valid() && |trace| == i + 1 && trace[0] == old(View()) && trace[i] == View()
        invariant forall j :: 0 <= j < i ==> Step(trace[j], ops[j], trace[j + 1])
      {
        Execute(ops[i]);
        trace := trace + [View()];
      }
    }
  }

  datatype Op =
    | New(n: nat) | Push(k: nat, v: Value) | Pop(k: nat) | Shift(k: nat)
    | PopMany(k: nat, count: int) | ShiftMany(k: nat, count: int)
    | Store(k: nat, i: int, v: Value) | Slice(k: nat, beg: int, len: int)
    | Replace(copy: nat, orig: nat) | Splice(k: nat, beg: int, len: int, rpl: nat)

  /** A new array appears under an address that no array had. */
  ghost predicate Appears(v: View, s: seq<Value>, w: View) {
    exists r: nat :: r !in v && w == v[r := s]
  }

  lemma AppearsAt(v: View, r: nat, s: seq<Value>, w: View)
    requires r !in v && w == v[r := s]
    ensures Appears(v, s, w)
  {
  }

  /** What an operation may do when every array is an independent sequence. */
  ghost predicate Step(v: View, op: Op, w: View) {
    match op
    case New(_) => Appears(v, [], w)
    case Push(k, x) => w == if k in v then v[k := v[k] + [x]] else v
    case Pop(k) => w == if k in v && v[k] != [] then v[k := v[k][..|v[k]| - 1]] else v
    case Shift(k) => w == if k in v && v[k] != [] then v[k := v[k][1..]] else v
    case PopMany(k, n) =>
      if k in v && n >= 0 then
        var m := |v[k]| - if n > |v[k]| then |v[k]| else n;
        Appears(v[k := v[k][..m]], v[k][m..], w)
      else w == v
    case ShiftMany(k, n) =>
      if k in v && n >= 0 then
        var m := if n > |v[k]| then |v[k]| else n;
        Appears(v[k := v[k][m..]], v[k][..m], w)
      else w == v
    case Store(k, i, x) =>
      w == if k in v && -|v[k]| <= i then v[k := Stored(v[k], if i < 0 then i + |v[k]| else i, x)] else v
    case Slice(k, b, l) =>
      if k in v && 0 <= b <= |v[k]| && 0 <= l
      then Appears(v, v[k][b..if b + l <= |v[k]| then b + l else |v[k]|], w) else w == v
    case Replace(c, o) => w == if c in v && o in v then v[c := v[o]] else v
    case Splice(k, b, l, r) =>
      w == if k in v && r in v && l >= 0 && -|v[k]| <= b
           then v[k := Spliced(v[k], if b < 0 then b + |v[k]| else b, l, v[r])] else v
  }

  lemma NamesAll(arrs: Arrays, bufs: Buffers)
    requires Consistent(arrs, bufs)
    ensures forall k :: k in arrs && !arrs[k].Root? <==> k in ViewOf(arrs, bufs)
  {
    forall k ensures k in arrs && !arrs[k].Root? <==> k in ViewOf(arrs, bufs) {
      InView(arrs, bufs, k);
    }
  }

  /** In every consistent heap a view's buffer is live, belongs to one root that no other array
      owns, contains the whole view, and is counted at least once per viewer. */
  lemma ViewsAreSafe(arrs: Arrays, bufs: Buffers, k: nat)
    requires Consistent(arrs, bufs) && k in arrs && arrs[k].Shared?
    ensures var a := arrs[k];
            && a.buf in bufs && a.root in arrs && arrs[a.root].Root? && arrs[a.root].buf == a.buf
            && a.off + a.len <= arrs[a.root].len <= |bufs[a.buf]|
            && 1 <= |Sharers(arrs, a.root)| <= arrs[a.root].num
            && forall j :: j in arrs && Owns(arrs[j]) && arrs[j].buf == a.buf ==> j == a.root
  {
    assert Fits(arrs, bufs, k) && Fits(arrs, bufs, arrs[k].root);
    assert {k} <= Sharers(arrs, arrs[k].root);
    CardinalityOfSubset({k}, Sharers(arrs, arrs[k].root));
  }

  lemma WindowMoved(s: seq<Value>, off: nat, len: nat, n: nat)
    requires off + len <= |s| && n <= len
    ensures s[off..][..len][n..] == s[off + n..][..len - n]
  {
  }

  lemma ShrinkOne(arrs: Arrays, bufs: Buffers, k: nat, n: nat)
    requires Consistent(arrs, bufs) && k in arrs && !arrs[k].Root? && n <= arrs[k].len
    ensures var a := WithLen(arrs[k], n);
            && k in ViewOf(arrs, bufs) && Consistent(arrs[k := a], bufs)
            && ViewOf(arrs[k := a], bufs) == ViewOf(arrs, bufs)[k := ViewOf(arrs, bufs)[k][..n]]
            && Cells(a, bufs) == Cells(arrs[k], bufs)
  {
    hide Fits, Separate, ViewOf;
    InView(arrs, bufs, k);
    OwnFacts(arrs, bufs, k);
    var a := arrs[k];
    ElementsAre(a, bufs);
    ElementsAre(WithLen(a, n), bufs);
    assert Cells(a, bufs)[..a.len][..n] == Cells(a, bufs)[..n];
    if a.Shared? {
      MoveView(arrs, bufs, k, a.off, n);
    } else {
      SetOwn(arrs, bufs, k, WithLen(a, n), bufs);
    }
  }

  lemma InsideView(a: RArray, bufs: Buffers, off: nat, len: nat, s: seq<Value>)
    requires a.Shared? && a.buf in bufs && a.off + a.len <= |bufs[a.buf]| && off + len <= a.len
    requires s == Elements(a, bufs)
    ensures Elements(Shared(a.buf, a.off + off, len, a.root), bufs) == s[off..off + len]
  {
    var b := bufs[a.buf];
    assert b[a.off..][..a.len][off..off + len] == b[a.off + off..][..len];
  }

  /** Moving the tail of an array's cells leaves what is in front of its new place. */
  lemma MoveTail(s: seq<Value>, cells: seq<Value>, beg: nat, len: nat, rlen: nat)
    requires beg < |s| && beg + len <= |s| <= |cells| && |s| + rlen - len <= |cells| && cells[..|s|] == s
    ensures var moved := if len != rlen then Put(cells, beg + rlen, cells[beg + len..|s|]) else cells;
            && moved[..beg] == s[..beg] && moved[beg + rlen..|s| + rlen - len] == s[beg + len..]
            && (rlen == |s| ==> moved[..rlen] == s)
  {
    var n, tail := beg + rlen, cells[beg + len..|s|];
    assert tail == s[beg + len..];
    assert cells[..beg] == s[..beg];
    if len != rlen {
      var moved := Put(cells, n, tail);
      assert moved[..n] == cells[..n];
      assert moved[..beg] == moved[..n][..beg] == cells[..n][..beg] == cells[..beg];
      assert moved[n..n + |tail|] == tail;
      if rlen == |s| { assert moved[..rlen] == moved[..n][..rlen] == cells[..n][..rlen] == cells[..|s|]; }
    }
  }

  lemma CopyIn(s: seq<Value>, moved: seq<Value>, cells: seq<Value>, beg: nat, len: nat, t: seq<Value>)
    requires beg + len <= |s| && |s| + |t| - len <= |moved|
    requires moved[..beg] == s[..beg] && moved[beg + |t|..|s| + |t| - len] == s[beg + len..]
    requires cells == if |t| > 0 then Put(moved, beg, t) else moved
    ensures cells[..|s| + |t| - len] == s[..beg] + t + s[beg + len..]
  {
  }

  /** What splicing does to a sequence. */
  function Spliced(s: seq<Value>, beg: nat, len: nat, t: seq<Value>): seq<Value> {
    if beg >= |s| then s + Nils(beg - |s|) + t
    else s[..beg] + t + if beg + len <= |s| then s[beg + len..] else []
  }

  lemma SplicedPast(s: seq<Value>, beg: nat, len: nat, t: seq<Value>)
    requires beg >= |s|
    ensures Spliced(s, beg, len, t) == s + Nils(beg - |s|) + t
  {
  }

  lemma SplicedInside(s: seq<Value>, beg: nat, len0: nat, len: nat, t: seq<Value>)
    requires beg < |s| && len == if beg + len0 <= |s| then len0 else |s| - beg
    ensures Spliced(s, beg, len0, t) == s[..beg] + t + s[beg + len..]
  {
  }

  /** What storing at a non-negative index does to a sequence. */
  function Stored(s: seq<Value>, idx: nat, val: Value): seq<Value> {
    if idx < |s| then s[idx := val] else s + Nils(idx - |s|) + [val]
  }

  lemma InView(arrs: Arrays, bufs: Buffers, k: nat)
    requires Consistent(arrs, bufs)
    ensures k in arrs && !arrs[k].Root? <==> k in ViewOf(arrs, bufs)
    ensures k in ViewOf(arrs, bufs) ==>
            ViewOf(arrs, bufs)[k] == Elements(arrs[k], bufs) && |ViewOf(arrs, bufs)[k]| == arrs[k].len
  {
    if k in arrs && !arrs[k].Root? {
      assert Fits(arrs, bufs, k);
    }
  }

  lemma ResizeFits(arrs: Arrays, bufs: Buffers, k: nat)
    requires Consistent(arrs, bufs) && k in arrs && !arrs[k].Shared?
    ensures !arrs[k].Root? ==> arrs[k].len <= Capa(arrs[k])
  {
    assert Fits(arrs, bufs, k);
  }

  lemma CellsAre(arrs: Arrays, bufs: Buffers, k: nat)
    requires Consistent(arrs, bufs) && k in arrs && (arrs[k].Embed? || arrs[k].Own?)
    ensures |Cells(arrs[k], bufs)| == Capa(arrs[k]) && arrs[k].len <= Capa(arrs[k])
    ensures Elements(arrs[k], bufs) == Cells(arrs[k], bufs)[..arrs[k].len]
  {
    assert Fits(arrs, bufs, k);
  }

  lemma NewBuffer(arrs: Arrays, bufs: Buffers, b: nat, s: seq<Value>)
    requires Consistent(arrs, bufs) && b !in bufs
    ensures Consistent(arrs, bufs[b := s]) && ViewOf(arrs, bufs[b := s]) == ViewOf(arrs, bufs)
    ensures forall j :: j in arrs && !arrs[j].Embed? ==> arrs[j].buf != b
  {
    hide Cells, Separate, Elements;
    var bufs' := bufs[b := s];
    forall j | j in arrs
      ensures Fits(arrs, bufs', j) && (!arrs[j].Embed? ==> arrs[j].buf in bufs)
      ensures Elements(arrs[j], bufs') == Elements(arrs[j], bufs)
    {
      assert Fits(arrs, bufs, j);
      hide Sharers;
      SameBuffer(arrs[j], bufs, bufs');
    }
  }

  lemma ElementsAre(a: RArray, bufs: Buffers)
    requires a.Embed? ==> a.len <= |a.slots|
    requires a.Own? ==> a.buf in bufs && a.len <= |bufs[a.buf]|
    requires a.Shared? ==> a.buf in bufs && a.off + a.len <= |bufs[a.buf]|
    ensures !a.Root? ==> a.len <= |Cells(a, bufs)| && Elements(a, bufs) == Cells(a, bufs)[..a.len]
    ensures a.Embed? ==> Cells(a, bufs) == a.slots
    ensures a.Own? ==> Cells(a, bufs) == bufs[a.buf]
    ensures a.Shared? ==> Cells(a, bufs) == bufs[a.buf][a.off..]
  {
  }

  lemma OwnFacts(arrs: Arrays, bufs: Buffers, k: nat)
    requires Consistent(arrs, bufs) && k in arrs
    ensures arrs[k].Embed? ==> |arrs[k].slots| == EMBED_MAX && arrs[k].len <= EMBED_MAX
    ensures arrs[k].Own? ==> arrs[k].buf in bufs && |bufs[arrs[k].buf]| == arrs[k].capa && arrs[k].len <= arrs[k].capa
    ensures arrs[k].Shared? ==>
              var root := arrs[k].root;
              && root in arrs && arrs[root].Root? && arrs[root].buf == arrs[k].buf && arrs[k].buf in bufs
              && arrs[k].off + arrs[k].len <= arrs[root].len <= |bufs[arrs[k].buf]|
  {
    assert Fits(arrs, bufs, k);
  }

  lemma ViewSame(v: View, k: nat, w: View)
    requires k in v && w == v[k := v[k]]
    ensures w == v
  {
  }
}
