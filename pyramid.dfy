/**
 The pyramid walker `create_tiles(maxz, z, x, y)`: it renders tile (z, x, y)
 and, while z + 1 <= maxz, creates the two column directories of the next
 level and descends into the four children, depth first. The walk is modelled
 as the trace of side effects it performs, in order.
 */
module Pyramid {
  import opened Decimal
  import opened TilePaths

  /** One side effect of the walk. */
  datatype Event =
    | MakeDir(z: int, x: int)  // create_path(z, x)
    | WriteTile(tile: Tile)    // create_single_tile(z, x, y)

  /** The trace of `create_tiles(maxZoom, z, x, y)`: the tile itself, then
      the descent below it. */
  function Walk(maxZoom: int, z: int, x: int, y: int): seq<Event>
    decreases maxZoom - z, 2
  {
    [WriteTile(Tile(z, x, y))] + Below(maxZoom, z, x, y)
  }

  /** The `if (z + 1 <= maxz)` block of `create_tiles`: nothing at maxz, else
      the two column directories of the next level, then the four child walks. */
  function Below(maxZoom: int, z: int, x: int, y: int): seq<Event>
    decreases maxZoom - z, 1
  {
    if z + 1 <= maxZoom then
      [MakeDir(z + 1, 2 * x), MakeDir(z + 1, 2 * x + 1)] + Descend(maxZoom, z, x, y)
    else []
  }

  /** The four recursive calls, in the order the source makes them. */
  function Descend(maxZoom: int, z: int, x: int, y: int): seq<Event>
    requires z + 1 <= maxZoom
    decreases maxZoom - z, 0
  {
    Walk(maxZoom, z + 1, 2 * x, 2 * y)
    + Walk(maxZoom, z + 1, 2 * x + 1, 2 * y)
    + Walk(maxZoom, z + 1, 2 * x, 2 * y + 1)
    + Walk(maxZoom, z + 1, 2 * x + 1, 2 * y + 1)
  }

  /** The entry sequence of `main`: the root's directory, then the walk. */
  function Run(minZoom: int, maxZoom: int, x: int, y: int): seq<Event> {
    [MakeDir(minZoom, x)] + Walk(maxZoom, minZoom, x, y)
  }

  /** The four children of a tile, in the order `create_tiles` visits them. */
  function Children(t: Tile): seq<Tile> {
    [ Tile(t.z + 1, 2 * t.x, 2 * t.y), Tile(t.z + 1, 2 * t.x + 1, 2 * t.y),
      Tile(t.z + 1, 2 * t.x, 2 * t.y + 1), Tile(t.z + 1, 2 * t.x + 1, 2 * t.y + 1) ]
  }

  /** The tiles a trace writes, in order. */
  function Written(trace: seq<Event>): seq<Tile> {
    if trace == [] then []
    else (if trace[0].WriteTile? then [trace[0].tile] else []) + Written(trace[1..])
  }

  /** The number of `create_path` calls in a trace. */
  function PathCalls(trace: seq<Event>): nat {
    if trace == [] then 0
    else (if trace[0].MakeDir? then 1 else 0) + PathCalls(trace[1..])
  }

  /** The tiles of a sequence that lie on zoom level k, in order. */
  function AtLevel(ts: seq<Tile>, k: int): seq<Tile> {
    if ts == [] then []
    else (if ts[0].z == k then [ts[0]] else []) + AtLevel(ts[1..], k)
  }

  /** The number of zoom levels below z that the walk descends. */
  function Depth(maxZoom: int, z: int): nat {
    if z <= maxZoom then maxZoom - z else 0
  }

  function Pow2(n: nat): (r: nat)
    ensures r >= 1
  {
    if n == 0 then 1 else 2 * Pow2(n - 1)
  }

  function Pow4(n: nat): (r: nat)
    ensures r >= 1
  {
    if n == 0 then 1 else 4 * Pow4(n - 1)
  }

  /** 1 + 4 + 16 + ... + 4^n */
  function GeomSum(n: nat): nat {
    if n == 0 then 1 else GeomSum(n - 1) + Pow4(n)
  }

  // ---------------------------------------------------------------------------
  // The reference definition of a pyramid: repeated halving
  // ---------------------------------------------------------------------------

  /** The tile one level up that covers t. Dafny's `/` by 2 rounds down. */
  function QuadParent(t: Tile): Tile {
    Tile(t.z - 1, t.x / 2, t.y / 2)
  }

  /** The tile k levels up that covers t. */
  function Ancestor(t: Tile, k: nat): (a: Tile)
    ensures a.z == t.z - k
  {
    if k == 0 then t else QuadParent(Ancestor(t, k - 1))
  }

  /** t is a tile of the pyramid rooted at `root` that ends at maxZoom: its level
      lies between the root's and max(root level, maxZoom), and halving its
      coordinates down to the root's level gives the root. */
  predicate InPyramid(maxZoom: int, root: Tile, t: Tile) {
    && root.z <= t.z
    && (t.z == root.z || t.z <= maxZoom)
    && Ancestor(t, t.z - root.z) == root
  }

  predicate Distinct<T(==)>(s: seq<T>) {
    forall i, j :: 0 <= i < j < |s| ==> s[i] != s[j]
  }

  // ---------------------------------------------------------------------------
  // Trace algebra
  // ---------------------------------------------------------------------------

  lemma {:induction false} WrittenAppend(a: seq<Event>, b: seq<Event>)
    ensures Written(a + b) == Written(a) + Written(b)
    ensures PathCalls(a + b) == PathCalls(a) + PathCalls(b)
    decreases |a|
  {
    if a != [] {
      assert (a + b)[0] == a[0];
      assert (a + b)[1..] == a[1..] + b;
      WrittenAppend(a[1..], b);
    } else {
      assert a + b == b;
    }
  }

  lemma {:induction false} AtLevelAppend(a: seq<Tile>, b: seq<Tile>, k: int)
    ensures AtLevel(a + b, k) == AtLevel(a, k) + AtLevel(b, k)
    decreases |a|
  {
    if a != [] {
      assert (a + b)[0] == a[0];
      assert (a + b)[1..] == a[1..] + b;
      AtLevelAppend(a[1..], b, k);
    } else {
      assert a + b == b;
    }
  }

  lemma {:induction false} AtLevelNone(ts: seq<Tile>, k: int)
    requires forall t :: t in ts ==> t.z > k
    ensures AtLevel(ts, k) == []
    decreases |ts|
  {
    if ts != [] {
      assert ts[0] in ts;
      assert forall t :: t in ts[1..] ==> t in ts;
      AtLevelNone(ts[1..], k);
    }
  }

  lemma DistinctConcat<T>(a: seq<T>, b: seq<T>)
    requires Distinct(a) && Distinct(b)
    requires forall v :: v in a ==> v !in b
    ensures Distinct(a + b)
  {
    var s := a + b;
    forall i, j | 0 <= i < j < |s| ensures s[i] != s[j] {
      if i < |a| && |a| <= j {
        assert s[i] in a && s[j] == b[j - |a|];
      }
    }
  }

  lemma Regroup<T>(d: seq<T>, w0: seq<T>, w1: seq<T>, w2: seq<T>, w3: seq<T>)
    ensures d + w0 + w1 + w2 + w3 == d + (w0 + w1 + w2 + w3)
  {
  }

  /** A non-leaf walk: its own tile, the two `create_path` calls of the next level,
      then the four child walks. */
  lemma WalkUnfold(maxZoom: int, z: int, x: int, y: int)
    requires z + 1 <= maxZoom
    ensures Walk(maxZoom, z, x, y)
            == [WriteTile(Tile(z, x, y))]
               + ([MakeDir(z + 1, 2 * x), MakeDir(z + 1, 2 * x + 1)]
                  + Walk(maxZoom, z + 1, 2 * x, 2 * y) + Walk(maxZoom, z + 1, 2 * x + 1, 2 * y)
                  + Walk(maxZoom, z + 1, 2 * x, 2 * y + 1) + Walk(maxZoom, z + 1, 2 * x + 1, 2 * y + 1))
  {
    assert Below(maxZoom, z, x, y) == [MakeDir(z + 1, 2 * x), MakeDir(z + 1, 2 * x + 1)] + Descend(maxZoom, z, x, y);
    Regroup([MakeDir(z + 1, 2 * x), MakeDir(z + 1, 2 * x + 1)],
            Walk(maxZoom, z + 1, 2 * x, 2 * y), Walk(maxZoom, z + 1, 2 * x + 1, 2 * y),
            Walk(maxZoom, z + 1, 2 * x, 2 * y + 1), Walk(maxZoom, z + 1, 2 * x + 1, 2 * y + 1));
  }

  lemma TwoDirs(m0: Event, m1: Event)
    requires m0.MakeDir? && m1.MakeDir?
    ensures Written([m0, m1]) == [] && PathCalls([m0, m1]) == 2
  {
    assert [m1][1..] == [];
    assert Written([m1]) == [] && PathCalls([m1]) == 1;
    assert [m0, m1][1..] == [m1];
  }

  lemma OneTile(t: Tile)
    ensures Written([WriteTile(t)]) == [t] && PathCalls([WriteTile(t)]) == 0
  {
    assert [WriteTile(t)][1..] == [];
  }

  /** The tiles and the directory count of a non-leaf walk's shape, on plain
      sequences. */
  lemma WrittenStep(t: Tile, m0: Event, m1: Event, w0: seq<Event>, w1: seq<Event>, w2: seq<Event>, w3: seq<Event>)
    requires m0.MakeDir? && m1.MakeDir?
    ensures Written([WriteTile(t)] + ([m0, m1] + w0 + w1 + w2 + w3))
            == [t] + (Written(w0) + Written(w1) + Written(w2) + Written(w3))
    ensures PathCalls([WriteTile(t)] + ([m0, m1] + w0 + w1 + w2 + w3))
            == 2 + PathCalls(w0) + PathCalls(w1) + PathCalls(w2) + PathCalls(w3)
  {
    var d := [m0, m1];
    TwoDirs(m0, m1);
    OneTile(t);
    WrittenAppend(d, w0);
    assert Written(d + w0) == Written(w0);
    WrittenAppend(d + w0, w1);
    WrittenAppend(d + w0 + w1, w2);
    WrittenAppend(d + w0 + w1 + w2, w3);
    WrittenAppend([WriteTile(t)], d + w0 + w1 + w2 + w3);
  }

  /** The tiles and `create_path` calls of a non-leaf walk: its own tile and
      two calls, then those of the four child walks. */
  lemma WalkSplit(maxZoom: int, z: int, x: int, y: int)
    requires z + 1 <= maxZoom
    ensures Written(Walk(maxZoom, z, x, y))
            == [Tile(z, x, y)]
               + (Written(Walk(maxZoom, z + 1, 2 * x, 2 * y)) + Written(Walk(maxZoom, z + 1, 2 * x + 1, 2 * y))
                  + Written(Walk(maxZoom, z + 1, 2 * x, 2 * y + 1)) + Written(Walk(maxZoom, z + 1, 2 * x + 1, 2 * y + 1)))
    ensures PathCalls(Walk(maxZoom, z, x, y))
            == 2 + PathCalls(Walk(maxZoom, z + 1, 2 * x, 2 * y)) + PathCalls(Walk(maxZoom, z + 1, 2 * x + 1, 2 * y))
               + PathCalls(Walk(maxZoom, z + 1, 2 * x, 2 * y + 1)) + PathCalls(Walk(maxZoom, z + 1, 2 * x + 1, 2 * y + 1))
  {
    WalkUnfold(maxZoom, z, x, y);
    WrittenStep(Tile(z, x, y), MakeDir(z + 1, 2 * x), MakeDir(z + 1, 2 * x + 1),
                Walk(maxZoom, z + 1, 2 * x, 2 * y), Walk(maxZoom, z + 1, 2 * x + 1, 2 * y),
                Walk(maxZoom, z + 1, 2 * x, 2 * y + 1), Walk(maxZoom, z + 1, 2 * x + 1, 2 * y + 1));
  }

  // ---------------------------------------------------------------------------
  // Tile and directory counts
  // ---------------------------------------------------------------------------

  lemma {:induction false} GeomSumStep(n: nat)
    ensures GeomSum(n + 1) == 1 + 4 * GeomSum(n)
  {
    if n > 0 {
      GeomSumStep(n - 1);
    }
  }

  /** The closed form of the geometric series: (4^(n+1) - 1) / 3. */
  lemma {:induction false} GeomSumClosedForm(n: nat)
    ensures 3 * GeomSum(n) + 1 == Pow4(n + 1)
  {
    if n > 0 {
      GeomSumClosedForm(n - 1);
    }
  }

  /** A walk spanning Depth levels writes 1 + 4 + ... + 4^Depth tiles; with
      maxZoom < z + 1 (including maxZoom < z) that is exactly one tile. */
  lemma {:induction false} WalkTileCount(maxZoom: int, z: int, x: int, y: int)
    ensures |Written(Walk(maxZoom, z, x, y))| == GeomSum(Depth(maxZoom, z))
    decreases maxZoom - z
  {
    if z + 1 <= maxZoom {
      WalkSplit(maxZoom, z, x, y);
      WalkTileCount(maxZoom, z + 1, 2 * x, 2 * y);
      WalkTileCount(maxZoom, z + 1, 2 * x + 1, 2 * y);
      WalkTileCount(maxZoom, z + 1, 2 * x, 2 * y + 1);
      WalkTileCount(maxZoom, z + 1, 2 * x + 1, 2 * y + 1);
      GeomSumStep(Depth(maxZoom, z + 1));
    } else {
      assert Written(Walk(maxZoom, z, x, y)) == [Tile(z, x, y)];
    }
  }

  /** Every non-leaf tile calls `create_path` twice; a leaf calls it not at all. */
  lemma {:induction false} WalkPathCalls(maxZoom: int, z: int, x: int, y: int)
    ensures PathCalls(Walk(maxZoom, z, x, y))
            == if Depth(maxZoom, z) == 0 then 0 else 2 * GeomSum(Depth(maxZoom, z) - 1)
    decreases maxZoom - z
  {
    if z + 1 <= maxZoom {
      WalkSplit(maxZoom, z, x, y);
      WalkPathCalls(maxZoom, z + 1, 2 * x, 2 * y);
      WalkPathCalls(maxZoom, z + 1, 2 * x + 1, 2 * y);
      WalkPathCalls(maxZoom, z + 1, 2 * x, 2 * y + 1);
      WalkPathCalls(maxZoom, z + 1, 2 * x + 1, 2 * y + 1);
      if Depth(maxZoom, z) >= 2 {
        GeomSumStep(Depth(maxZoom, z) - 2);
      }
    } else {
      assert PathCalls(Walk(maxZoom, z, x, y)) == 0;
    }
  }

  // ---------------------------------------------------------------------------
  // Coverage and exactly-once
  // ---------------------------------------------------------------------------

  lemma InUnfolded<T>(v: T, h: seq<T>, d: seq<T>, w0: seq<T>, w1: seq<T>, w2: seq<T>, w3: seq<T>)
    ensures v in h + (d + w0 + w1 + w2 + w3)
            <==> v in h || v in d || v in w0 || v in w1 || v in w2 || v in w3
  {
  }

  /** Membership in a pyramid that goes below its root: the root itself, or a
      tile of the pyramid of one of the four children. */
  lemma InPyramidStep(maxZoom: int, z: int, x: int, y: int, t: Tile)
    requires z + 1 <= maxZoom
    ensures InPyramid(maxZoom, Tile(z, x, y), t)
            <==> || t == Tile(z, x, y)
                 || InPyramid(maxZoom, Tile(z + 1, 2 * x, 2 * y), t)
                 || InPyramid(maxZoom, Tile(z + 1, 2 * x + 1, 2 * y), t)
                 || InPyramid(maxZoom, Tile(z + 1, 2 * x, 2 * y + 1), t)
                 || InPyramid(maxZoom, Tile(z + 1, 2 * x + 1, 2 * y + 1), t)
  {
    if t.z >= z + 1 {
      var k := t.z - z;
      var a := Ancestor(t, k - 1);
      assert Ancestor(t, k) == QuadParent(a);
    }
  }

  lemma InFour<T>(v: T, a: seq<T>, w0: seq<T>, w1: seq<T>, w2: seq<T>, w3: seq<T>)
    ensures v in a + (w0 + w1 + w2 + w3) <==> v in a || v in w0 || v in w1 || v in w2 || v in w3
  {
  }

  /** The induction step of WalkCoverage, on plain sequences. */
  lemma CoverageStep(maxZoom: int, z: int, x: int, y: int, t: Tile,
                     ws: seq<Tile>, w0: seq<Tile>, w1: seq<Tile>, w2: seq<Tile>, w3: seq<Tile>)
    requires z + 1 <= maxZoom
    requires ws == [Tile(z, x, y)] + (w0 + w1 + w2 + w3)
    requires t in w0 <==> InPyramid(maxZoom, Tile(z + 1, 2 * x, 2 * y), t)
    requires t in w1 <==> InPyramid(maxZoom, Tile(z + 1, 2 * x + 1, 2 * y), t)
    requires t in w2 <==> InPyramid(maxZoom, Tile(z + 1, 2 * x, 2 * y + 1), t)
    requires t in w3 <==> InPyramid(maxZoom, Tile(z + 1, 2 * x + 1, 2 * y + 1), t)
    ensures t in ws <==> InPyramid(maxZoom, Tile(z, x, y), t)
  {
    InPyramidStep(maxZoom, z, x, y, t);
    InFour(t, [Tile(z, x, y)], w0, w1, w2, w3);
  }

  /** The tiles `create_tiles(maxZoom, z, x, y)` writes are exactly the tiles
      of the pyramid rooted at (z, x, y) down to maxZoom. */
  lemma {:induction false} WalkCoverage(maxZoom: int, z: int, x: int, y: int, t: Tile)
    ensures t in Written(Walk(maxZoom, z, x, y)) <==> InPyramid(maxZoom, Tile(z, x, y), t)
    decreases maxZoom - z
  {
    if z + 1 <= maxZoom {
      WalkSplit(maxZoom, z, x, y);
      WalkCoverage(maxZoom, z + 1, 2 * x, 2 * y, t);
      WalkCoverage(maxZoom, z + 1, 2 * x + 1, 2 * y, t);
      WalkCoverage(maxZoom, z + 1, 2 * x, 2 * y + 1, t);
      WalkCoverage(maxZoom, z + 1, 2 * x + 1, 2 * y + 1, t);
      CoverageStep(maxZoom, z, x, y, t, Written(Walk(maxZoom, z, x, y)),
                   Written(Walk(maxZoom, z + 1, 2 * x, 2 * y)), Written(Walk(maxZoom, z + 1, 2 * x + 1, 2 * y)),
                   Written(Walk(maxZoom, z + 1, 2 * x, 2 * y + 1)), Written(Walk(maxZoom, z + 1, 2 * x + 1, 2 * y + 1)));
    } else {
      assert Written(Walk(maxZoom, z, x, y)) == [Tile(z, x, y)];
    }
  }

  /** Pyramids of two different tiles on one level share no tile. */
  lemma PyramidsDisjoint(maxZoom: int, c: Tile, d: Tile, t: Tile)
    requires c.z == d.z && c != d
    ensures !(InPyramid(maxZoom, c, t) && InPyramid(maxZoom, d, t))
  {
  }

  /** Tiles written by the walks of two different tiles on one level are
      different. */
  lemma WalksDisjoint(maxZoom: int, c: Tile, d: Tile)
    requires c.z == d.z && c != d
    ensures forall t :: t in Written(Walk(maxZoom, c.z, c.x, c.y)) ==> t !in Written(Walk(maxZoom, d.z, d.x, d.y))
  {
    forall t | t in Written(Walk(maxZoom, c.z, c.x, c.y))
      ensures t !in Written(Walk(maxZoom, d.z, d.x, d.y))
    {
      WalkCoverage(maxZoom, c.z, c.x, c.y, t);
      WalkCoverage(maxZoom, d.z, d.x, d.y, t);
      PyramidsDisjoint(maxZoom, c, d, t);
    }
  }

  /** The induction step of WalkDistinct, on plain sequences. */
  lemma DistinctStep<T>(r: T, w0: seq<T>, w1: seq<T>, w2: seq<T>, w3: seq<T>)
    requires Distinct(w0) && Distinct(w1) && Distinct(w2) && Distinct(w3)
    requires forall v :: v in w0 ==> v !in w1 && v !in w2 && v !in w3
    requires forall v :: v in w1 ==> v !in w2 && v !in w3
    requires forall v :: v in w2 ==> v !in w3
    requires r !in w0 && r !in w1 && r !in w2 && r !in w3
    ensures Distinct([r] + (w0 + w1 + w2 + w3))
  {
    DistinctConcat(w0, w1);
    DistinctConcat(w0 + w1, w2);
    DistinctConcat(w0 + w1 + w2, w3);
    DistinctConcat([r], w0 + w1 + w2 + w3);
  }

  /** No tile is written twice. */
  lemma {:induction false} WalkDistinct(maxZoom: int, z: int, x: int, y: int)
    ensures Distinct(Written(Walk(maxZoom, z, x, y)))
    decreases maxZoom - z
  {
    var root := Tile(z, x, y);
    if z + 1 <= maxZoom {
      var c0, c1 := Tile(z + 1, 2 * x, 2 * y), Tile(z + 1, 2 * x + 1, 2 * y);
      var c2, c3 := Tile(z + 1, 2 * x, 2 * y + 1), Tile(z + 1, 2 * x + 1, 2 * y + 1);
      WalkSplit(maxZoom, z, x, y);
      WalkDistinct(maxZoom, z + 1, 2 * x, 2 * y);
      WalkDistinct(maxZoom, z + 1, 2 * x + 1, 2 * y);
      WalkDistinct(maxZoom, z + 1, 2 * x, 2 * y + 1);
      WalkDistinct(maxZoom, z + 1, 2 * x + 1, 2 * y + 1);
      WalksDisjoint(maxZoom, c0, c1);
      WalksDisjoint(maxZoom, c0, c2);
      WalksDisjoint(maxZoom, c0, c3);
      WalksDisjoint(maxZoom, c1, c2);
      WalksDisjoint(maxZoom, c1, c3);
      WalksDisjoint(maxZoom, c2, c3);
      WalkCoverage(maxZoom, z + 1, 2 * x, 2 * y, root);
      WalkCoverage(maxZoom, z + 1, 2 * x + 1, 2 * y, root);
      WalkCoverage(maxZoom, z + 1, 2 * x, 2 * y + 1, root);
      WalkCoverage(maxZoom, z + 1, 2 * x + 1, 2 * y + 1, root);
      DistinctStep(root, Written(Walk(maxZoom, z + 1, 2 * x, 2 * y)), Written(Walk(maxZoom, z + 1, 2 * x + 1, 2 * y)),
                   Written(Walk(maxZoom, z + 1, 2 * x, 2 * y + 1)), Written(Walk(maxZoom, z + 1, 2 * x + 1, 2 * y + 1)));
    } else {
      assert Written(Walk(maxZoom, z, x, y)) == [root];
    }
  }

  // ---------------------------------------------------------------------------
  // Visiting order
  // ---------------------------------------------------------------------------

  /** A walk starts by writing its own tile, and that is the only tile it
      writes on its own level. */
  lemma WalkOwnTileFirst(maxZoom: int, z: int, x: int, y: int)
    ensures Walk(maxZoom, z, x, y)[0] == WriteTile(Tile(z, x, y))
    ensures AtLevel(Written(Walk(maxZoom, z, x, y)), z) == [Tile(z, x, y)]
  {
    var root := Tile(z, x, y);
    var ws := Written(Walk(maxZoom, z, x, y));
    assert ws[0] == root by {
      if z + 1 <= maxZoom { WalkSplit(maxZoom, z, x, y); }
      else { assert ws == [root]; }
    }
    assert ws == [root] + ws[1..];
    AtLevelAppend([root], ws[1..], z);
    WalkDistinct(maxZoom, z, x, y);
    forall t | t in ws[1..] ensures t.z > z {
      var j :| 0 <= j < |ws[1..]| && ws[1..][j] == t;
      assert ws[j + 1] == t && ws[0] != ws[j + 1];
      WalkCoverage(maxZoom, z, x, y, t);
    }
    AtLevelNone(ws[1..], z);
  }

  /** The tiles on level k of a non-leaf walk's shape whose own tile lies on
      another level, on plain sequences. */
  lemma LevelStep(k: int, r: Tile, w0: seq<Tile>, w1: seq<Tile>, w2: seq<Tile>, w3: seq<Tile>)
    requires r.z != k
    ensures AtLevel([r] + (w0 + w1 + w2 + w3), k)
            == AtLevel(w0, k) + AtLevel(w1, k) + AtLevel(w2, k) + AtLevel(w3, k)
  {
    AtLevelAppend([r], w0 + w1 + w2 + w3, k);
    AtLevelAppend(w0 + w1 + w2, w3, k);
    AtLevelAppend(w0 + w1, w2, k);
    AtLevelAppend(w0, w1, k);
    assert [r][1..] == [];
  }

  /** The tiles a non-leaf walk writes one level below its root are the four
      children, in the order (2x, 2y), (2x+1, 2y), (2x, 2y+1), (2x+1, 2y+1). */
  lemma WalkChildrenInOrder(maxZoom: int, z: int, x: int, y: int)
    requires z + 1 <= maxZoom
    ensures AtLevel(Written(Walk(maxZoom, z, x, y)), z + 1) == Children(Tile(z, x, y))
  {
    WalkSplit(maxZoom, z, x, y);
    WalkOwnTileFirst(maxZoom, z + 1, 2 * x, 2 * y);
    WalkOwnTileFirst(maxZoom, z + 1, 2 * x + 1, 2 * y);
    WalkOwnTileFirst(maxZoom, z + 1, 2 * x, 2 * y + 1);
    WalkOwnTileFirst(maxZoom, z + 1, 2 * x + 1, 2 * y + 1);
    LevelStep(z + 1, Tile(z, x, y), Written(Walk(maxZoom, z + 1, 2 * x, 2 * y)), Written(Walk(maxZoom, z + 1, 2 * x + 1, 2 * y)),
              Written(Walk(maxZoom, z + 1, 2 * x, 2 * y + 1)), Written(Walk(maxZoom, z + 1, 2 * x + 1, 2 * y + 1)));
  }

  // ---------------------------------------------------------------------------
  // Coordinate bounds
  // ---------------------------------------------------------------------------

  /** A tile whose k-th ancestor lies in the 2^z by 2^z grid of its level lies
      in the grid of its own level. */
  lemma {:induction false} InGridFromAncestor(t: Tile, k: nat)
    requires t.z - k >= 0
    requires 0 <= Ancestor(t, k).x < Pow2(t.z - k) && 0 <= Ancestor(t, k).y < Pow2(t.z - k)
    ensures 0 <= t.x < Pow2(t.z) && 0 <= t.y < Pow2(t.z)
    decreases k
  {
    if k > 0 {
      var b := Ancestor(t, k - 1);
      assert Ancestor(t, k) == QuadParent(b);
      assert Pow2(t.z - k + 1) == 2 * Pow2(t.z - k);
      InGridFromAncestor(t, k - 1);
    }
  }

  /** e, if it creates a directory, creates one on a level from lo to maxZoom
      and inside the grid of that level. */
  predicate DirInRange(e: Event, lo: int, maxZoom: int) {
    e.MakeDir? ==> 0 <= lo <= e.z <= maxZoom && 0 <= e.x < Pow2(e.z)
  }

  /** The induction step of WalkDirBounds, on plain sequences. */
  lemma DirBoundsStep(maxZoom: int, z: int, x: int, e: Event, h: Event, ws: seq<Event>,
                      w0: seq<Event>, w1: seq<Event>, w2: seq<Event>, w3: seq<Event>)
    requires 0 <= z && 0 <= x < Pow2(z) && z + 1 <= maxZoom && h.WriteTile?
    requires ws == [h] + ([MakeDir(z + 1, 2 * x), MakeDir(z + 1, 2 * x + 1)] + w0 + w1 + w2 + w3)
    requires e in w0 ==> DirInRange(e, z + 2, maxZoom)
    requires e in w1 ==> DirInRange(e, z + 2, maxZoom)
    requires e in w2 ==> DirInRange(e, z + 2, maxZoom)
    requires e in w3 ==> DirInRange(e, z + 2, maxZoom)
    ensures e in ws ==> DirInRange(e, z + 1, maxZoom)
  {
    assert Pow2(z + 1) == 2 * Pow2(z);
    InUnfolded(e, [h], [MakeDir(z + 1, 2 * x), MakeDir(z + 1, 2 * x + 1)], w0, w1, w2, w3);
  }

  /** Every directory a walk creates is one level or more below the walk's
      root, at most at maxZoom, and (from a root inside its grid) inside the
      grid of its level. */
  lemma {:induction false} WalkDirBounds(maxZoom: int, z: int, x: int, y: int, e: Event)
    requires 0 <= z && 0 <= x < Pow2(z) && 0 <= y < Pow2(z)
    ensures e in Walk(maxZoom, z, x, y) ==> DirInRange(e, z + 1, maxZoom)
    decreases maxZoom - z
  {
    if z + 1 <= maxZoom {
      assert Pow2(z + 1) == 2 * Pow2(z);
      WalkUnfold(maxZoom, z, x, y);
      WalkDirBounds(maxZoom, z + 1, 2 * x, 2 * y, e);
      WalkDirBounds(maxZoom, z + 1, 2 * x + 1, 2 * y, e);
      WalkDirBounds(maxZoom, z + 1, 2 * x, 2 * y + 1, e);
      WalkDirBounds(maxZoom, z + 1, 2 * x + 1, 2 * y + 1, e);
      DirBoundsStep(maxZoom, z, x, e, WriteTile(Tile(z, x, y)), Walk(maxZoom, z, x, y),
                    Walk(maxZoom, z + 1, 2 * x, 2 * y), Walk(maxZoom, z + 1, 2 * x + 1, 2 * y),
                    Walk(maxZoom, z + 1, 2 * x, 2 * y + 1), Walk(maxZoom, z + 1, 2 * x + 1, 2 * y + 1));
    } else {
      assert Walk(maxZoom, z, x, y) == [WriteTile(Tile(z, x, y))];
    }
  }

  /** Starting from a tile inside the 2^z by 2^z grid of its level, every
      written tile lies inside its own level's grid, on a level from z to
      max(z, maxZoom), and so does every created directory (on a level from
      z + 1 to maxZoom). */
  lemma WalkBounds(maxZoom: int, z: int, x: int, y: int)
    requires 0 <= z && 0 <= x < Pow2(z) && 0 <= y < Pow2(z)
    ensures forall t :: t in Written(Walk(maxZoom, z, x, y)) ==>
              && z <= t.z && (t.z == z || t.z <= maxZoom)
              && 0 <= t.x < Pow2(t.z) && 0 <= t.y < Pow2(t.z)
    ensures forall e :: e in Walk(maxZoom, z, x, y) && e.MakeDir? ==>
              z < e.z <= maxZoom && 0 <= e.x < Pow2(e.z)
  {
    forall t | t in Written(Walk(maxZoom, z, x, y))
      ensures && z <= t.z && (t.z == z || t.z <= maxZoom)
              && 0 <= t.x < Pow2(t.z) && 0 <= t.y < Pow2(t.z)
    {
      WalkCoverage(maxZoom, z, x, y, t);
      InGridFromAncestor(t, t.z - z);
    }
    forall e | e in Walk(maxZoom, z, x, y) && e.MakeDir?
      ensures z < e.z <= maxZoom && 0 <= e.x < Pow2(e.z)
    {
      WalkDirBounds(maxZoom, z, x, y, e);
    }
  }

  // ---------------------------------------------------------------------------
  // Directories before files
  // ---------------------------------------------------------------------------

  /** A column directory (z, x), the one `create_path(z, x)` makes. */
  type Column = (int, int)

  /** Replaying the trace with the column directories `made` already present,
      every tile is written after its column directory has been made. */
  predicate DirsFirst(trace: seq<Event>, made: set<Column>)
    decreases |trace|
  {
    trace == [] ||
    if trace[0].MakeDir? then DirsFirst(trace[1..], made + {(trace[0].z, trace[0].x)})
    else (trace[0].tile.z, trace[0].tile.x) in made && DirsFirst(trace[1..], made)
  }

  /** The column directories present after replaying a trace. */
  function ColumnsAfter(trace: seq<Event>, made: set<Column>): set<Column>
    decreases |trace|
  {
    if trace == [] then made
    else ColumnsAfter(trace[1..], if trace[0].MakeDir? then made + {(trace[0].z, trace[0].x)} else made)
  }

  lemma DirsFirstCons(e: Event, rest: seq<Event>, made: set<Column>)
    ensures DirsFirst([e] + rest, made)
            <==> if e.MakeDir? then DirsFirst(rest, made + {(e.z, e.x)})
                 else (e.tile.z, e.tile.x) in made && DirsFirst(rest, made)
  {
    assert ([e] + rest)[0] == e;
    assert ([e] + rest)[1..] == rest;
  }

  lemma {:induction false} DirsFirstMonotone(trace: seq<Event>, m1: set<Column>, m2: set<Column>)
    requires m1 <= m2 && DirsFirst(trace, m1)
    ensures DirsFirst(trace, m2)
    decreases |trace|
  {
    if trace != [] {
      var e := trace[0];
      if e.MakeDir? {
        DirsFirstMonotone(trace[1..], m1 + {(e.z, e.x)}, m2 + {(e.z, e.x)});
      } else {
        DirsFirstMonotone(trace[1..], m1, m2);
      }
    }
  }

  lemma {:induction false} DirsFirstConcat(a: seq<Event>, b: seq<Event>, made: set<Column>)
    requires DirsFirst(a, made) && DirsFirst(b, made)
    ensures DirsFirst(a + b, made)
    decreases |a|
  {
    if a == [] {
      assert a + b == b;
    } else {
      var e := a[0];
      assert a + b == [e] + (a[1..] + b);
      assert a == [e] + a[1..];
      DirsFirstCons(e, a[1..], made);
      DirsFirstCons(e, a[1..] + b, made);
      if e.MakeDir? {
        DirsFirstMonotone(b, made, made + {(e.z, e.x)});
        DirsFirstConcat(a[1..], b, made + {(e.z, e.x)});
      } else {
        DirsFirstConcat(a[1..], b, made);
      }
    }
  }

  lemma DirsFirstConcat4(w0: seq<Event>, w1: seq<Event>, w2: seq<Event>, w3: seq<Event>, made: set<Column>)
    requires DirsFirst(w0, made) && DirsFirst(w1, made) && DirsFirst(w2, made) && DirsFirst(w3, made)
    ensures DirsFirst(w0 + w1 + w2 + w3, made)
  {
    DirsFirstConcat(w0, w1, made);
    DirsFirstConcat(w0 + w1, w2, made);
    DirsFirstConcat(w0 + w1 + w2, w3, made);
  }

  lemma DirsFirstHead(root: Tile, made: set<Column>, rest: seq<Event>)
    requires (root.z, root.x) in made
    requires DirsFirst(rest, made + {(root.z + 1, 2 * root.x)} + {(root.z + 1, 2 * root.x + 1)})
    ensures DirsFirst([WriteTile(root)] + ([MakeDir(root.z + 1, 2 * root.x), MakeDir(root.z + 1, 2 * root.x + 1)] + rest), made)
  {
    var m0, m1 := MakeDir(root.z + 1, 2 * root.x), MakeDir(root.z + 1, 2 * root.x + 1);
    assert [m0, m1] + rest == [m0] + ([m1] + rest);
    DirsFirstCons(m1, rest, made + {(root.z + 1, 2 * root.x)});
    DirsFirstCons(m0, [m1] + rest, made);
    DirsFirstCons(WriteTile(root), [m0, m1] + rest, made);
  }

  /** Once the root's column directory exists, the walk never writes a tile
      before its column directory has been made. */
  lemma {:induction false} WalkDirsFirst(maxZoom: int, z: int, x: int, y: int, made: set<Column>)
    requires (z, x) in made
    ensures DirsFirst(Walk(maxZoom, z, x, y), made)
    decreases maxZoom - z
  {
    var root := Tile(z, x, y);
    if z + 1 <= maxZoom {
      WalkUnfold(maxZoom, z, x, y);
      var m1 := made + {(z + 1, 2 * x)} + {(z + 1, 2 * x + 1)};
      WalkDirsFirst(maxZoom, z + 1, 2 * x, 2 * y, m1);
      WalkDirsFirst(maxZoom, z + 1, 2 * x + 1, 2 * y, m1);
      WalkDirsFirst(maxZoom, z + 1, 2 * x, 2 * y + 1, m1);
      WalkDirsFirst(maxZoom, z + 1, 2 * x + 1, 2 * y + 1, m1);
      var w0, w1 := Walk(maxZoom, z + 1, 2 * x, 2 * y), Walk(maxZoom, z + 1, 2 * x + 1, 2 * y);
      var w2, w3 := Walk(maxZoom, z + 1, 2 * x, 2 * y + 1), Walk(maxZoom, z + 1, 2 * x + 1, 2 * y + 1);
      DirsFirstConcat4(w0, w1, w2, w3, m1);
      Regroup([MakeDir(z + 1, 2 * x), MakeDir(z + 1, 2 * x + 1)], w0, w1, w2, w3);
      DirsFirstHead(root, made, w0 + w1 + w2 + w3);
    } else {
      assert Walk(maxZoom, z, x, y) == [WriteTile(root)] + [];
      DirsFirstCons(WriteTile(root), [], made);
    }
  }

  /** From no directories at all, `main`'s entry sequence writes every tile
      into a column directory made before it. */
  lemma RunDirsFirst(minZoom: int, maxZoom: int, x: int, y: int)
    ensures DirsFirst(Run(minZoom, maxZoom, x, y), {})
  {
    WalkDirsFirst(maxZoom, minZoom, x, y, {} + {(minZoom, x)});
    DirsFirstCons(MakeDir(minZoom, x), Walk(maxZoom, minZoom, x, y), {});
  }

  /** DirsFirst read event by event: at every WriteTile, the tile's column is
      among those the earlier events have made. */
  lemma {:induction false} DirsFirstAt(trace: seq<Event>, made: set<Column>, i: nat)
    requires DirsFirst(trace, made)
    requires i < |trace| && trace[i].WriteTile?
    ensures (trace[i].tile.z, trace[i].tile.x) in ColumnsAfter(trace[..i], made)
    decreases i
  {
    var e := trace[0];
    assert trace == [e] + trace[1..];
    DirsFirstCons(e, trace[1..], made);
    if i == 0 {
      assert trace[..i] == [];
    } else {
      var m' := if e.MakeDir? then made + {(e.z, e.x)} else made;
      DirsFirstAt(trace[1..], m', i - 1);
      assert trace[..i][0] == e;
      assert trace[..i][1..] == trace[1..][..i - 1];
    }
  }

  // ---------------------------------------------------------------------------
  // Which column directories the walk asks for
  // ---------------------------------------------------------------------------

  /** The columns the `create_path` calls of a trace name. */
  function MadeColumns(trace: seq<Event>): set<Column> {
    if trace == [] then {}
    else (if trace[0].MakeDir? then {(trace[0].z, trace[0].x)} else {}) + MadeColumns(trace[1..])
  }

  /** The columns a sequence of tiles lies in. */
  function TileColumns(ts: seq<Tile>): set<Column> {
    if ts == [] then {} else {(ts[0].z, ts[0].x)} + TileColumns(ts[1..])
  }

  lemma {:induction false} MadeColumnsAppend(a: seq<Event>, b: seq<Event>)
    ensures MadeColumns(a + b) == MadeColumns(a) + MadeColumns(b)
    decreases |a|
  {
    if a == [] {
      assert a + b == b;
    } else {
      assert (a + b)[0] == a[0];
      assert (a + b)[1..] == a[1..] + b;
      MadeColumnsAppend(a[1..], b);
    }
  }

  lemma {:induction false} TileColumnsAppend(a: seq<Tile>, b: seq<Tile>)
    ensures TileColumns(a + b) == TileColumns(a) + TileColumns(b)
    decreases |a|
  {
    if a == [] {
      assert a + b == b;
    } else {
      assert (a + b)[0] == a[0];
      assert (a + b)[1..] == a[1..] + b;
      TileColumnsAppend(a[1..], b);
    }
  }

  /** The columns of a root tile followed by four tile sequences. */
  lemma TileColumnsStep(t: Tile, v0: seq<Tile>, v1: seq<Tile>, v2: seq<Tile>, v3: seq<Tile>)
    ensures TileColumns([t] + (v0 + v1 + v2 + v3))
            == {(t.z, t.x)} + TileColumns(v0) + TileColumns(v1) + TileColumns(v2) + TileColumns(v3)
  {
    TileColumnsAppend([t], v0 + v1 + v2 + v3);
    TileColumnsAppend(v0 + v1 + v2, v3);
    TileColumnsAppend(v0 + v1, v2);
    TileColumnsAppend(v0, v1);
    assert [t][1..] == [];
  }

  /** The columns named by a tile write, two `create_path` calls and four
      traces. */
  lemma MadeColumnsStep(t: Tile, m0: Event, m1: Event, w0: seq<Event>, w1: seq<Event>, w2: seq<Event>, w3: seq<Event>)
    requires m0.MakeDir? && m1.MakeDir?
    ensures MadeColumns([WriteTile(t)] + ([m0, m1] + w0 + w1 + w2 + w3))
            == {(m0.z, m0.x), (m1.z, m1.x)} + MadeColumns(w0) + MadeColumns(w1) + MadeColumns(w2) + MadeColumns(w3)
  {
    var d := [m0, m1];
    MadeColumnsAppend([WriteTile(t)], d + w0 + w1 + w2 + w3);
    MadeColumnsAppend(d + w0 + w1 + w2, w3);
    MadeColumnsAppend(d + w0 + w1, w2);
    MadeColumnsAppend(d + w0, w1);
    MadeColumnsAppend(d, w0);
    assert [WriteTile(t)][1..] == [];
    assert d[1..] == [m1] && [m1][1..] == [];
    assert MadeColumns([m1]) == {(m1.z, m1.x)};
  }

  /** The columns of a non-leaf walk's shape, on plain sequences: given that
      every child walk asks for its own tiles' columns except its root's, so
      does the whole. */
  lemma ColumnsStep(t: Tile, w0: seq<Event>, w1: seq<Event>, w2: seq<Event>, w3: seq<Event>)
    requires TileColumns(Written(w0)) == {(t.z + 1, 2 * t.x)} + MadeColumns(w0)
    requires TileColumns(Written(w1)) == {(t.z + 1, 2 * t.x + 1)} + MadeColumns(w1)
    requires TileColumns(Written(w2)) == {(t.z + 1, 2 * t.x)} + MadeColumns(w2)
    requires TileColumns(Written(w3)) == {(t.z + 1, 2 * t.x + 1)} + MadeColumns(w3)
    ensures var walk := [WriteTile(t)] + ([MakeDir(t.z + 1, 2 * t.x), MakeDir(t.z + 1, 2 * t.x + 1)] + w0 + w1 + w2 + w3);
            TileColumns(Written(walk)) == {(t.z, t.x)} + MadeColumns(walk)
  {
    var m0, m1 := MakeDir(t.z + 1, 2 * t.x), MakeDir(t.z + 1, 2 * t.x + 1);
    WrittenStep(t, m0, m1, w0, w1, w2, w3);
    TileColumnsStep(t, Written(w0), Written(w1), Written(w2), Written(w3));
    MadeColumnsStep(t, m0, m1, w0, w1, w2, w3);
  }

  /** The columns a walk's tiles lie in are its root's column and the columns
      it calls `create_path` for, and nothing else: every directory made holds
      a tile, and every tile below the root has its directory made. */
  lemma {:induction false} WalkColumns(maxZoom: int, z: int, x: int, y: int)
    ensures TileColumns(Written(Walk(maxZoom, z, x, y))) == {(z, x)} + MadeColumns(Walk(maxZoom, z, x, y))
    decreases maxZoom - z
  {
    var root := Tile(z, x, y);
    if z + 1 <= maxZoom {
      WalkColumns(maxZoom, z + 1, 2 * x, 2 * y);
      WalkColumns(maxZoom, z + 1, 2 * x + 1, 2 * y);
      WalkColumns(maxZoom, z + 1, 2 * x, 2 * y + 1);
      WalkColumns(maxZoom, z + 1, 2 * x + 1, 2 * y + 1);
      WalkUnfold(maxZoom, z, x, y);
      ColumnsStep(root, Walk(maxZoom, z + 1, 2 * x, 2 * y), Walk(maxZoom, z + 1, 2 * x + 1, 2 * y),
                  Walk(maxZoom, z + 1, 2 * x, 2 * y + 1), Walk(maxZoom, z + 1, 2 * x + 1, 2 * y + 1));
    } else {
      var w := Walk(maxZoom, z, x, y);
      assert Below(maxZoom, z, x, y) == [];
      assert w == [WriteTile(root)] + [];
      assert w[1..] == [];
      OneTile(root);
      assert [root][1..] == [];
    }
  }

  /** `main`'s entry sequence asks for exactly the columns its tiles lie in. */
  lemma RunColumns(minZoom: int, maxZoom: int, x: int, y: int)
    ensures MadeColumns(Run(minZoom, maxZoom, x, y)) == TileColumns(Written(Walk(maxZoom, minZoom, x, y)))
  {
    var m := MakeDir(minZoom, x);
    WalkColumns(maxZoom, minZoom, x, y);
    MadeColumnsAppend([m], Walk(maxZoom, minZoom, x, y));
    assert [m][1..] == [];
    assert MadeColumns([m]) == {(minZoom, x)};
  }

  // ---------------------------------------------------------------------------
  // A small pyramid
  // ---------------------------------------------------------------------------

  /** Levels 0 to 1 from tile (0, 0, 0): five tiles, column directories 1/0 and 1/1. */
  lemma SmallPyramid()
    ensures Run(0, 1, 0, 0)
            == [ MakeDir(0, 0), WriteTile(Tile(0, 0, 0)), MakeDir(1, 0), MakeDir(1, 1),
                 WriteTile(Tile(1, 0, 0)), WriteTile(Tile(1, 1, 0)),
                 WriteTile(Tile(1, 0, 1)), WriteTile(Tile(1, 1, 1)) ]
  {
  }
}
