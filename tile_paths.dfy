/**
 Tile identity and the on-disk layout: the directory `create_path` makes for a
 zoom level and a column, `"<z>/<x>"`, and the file a tile is written to,
 `"<z>/<x>/<y>.pbf"`. Every component is the `std::to_string` text of an `int`.
 */
module TilePaths {
  import opened Decimal

  /** A tile address: zoom level and column/row at that level. */
  datatype Tile = Tile(z: int, x: int, y: int)

  /** The directory string of `create_path(z, x)`. */
  function DirPath(z: int, x: int): string {
    IntToString(z) + "/" + IntToString(x)
  }

  /** The directories `boost::filesystem::create_directories` ensures for
      `DirPath(z, x)`: the zoom directory and the column directory below it. */
  function CreatedDirs(z: int, x: int): set<string> {
    {IntToString(z), DirPath(z, x)}
  }

  /** The file name a tile's payload is written to. */
  function TilePath(t: Tile): string {
    IntToString(t.z) + "/" + IntToString(t.x) + "/" + IntToString(t.y) + ".pbf"
  }

  /** The part of a path before its last '/', or "" when it has none. */
  function ParentDir(p: string): string
    decreases |p|
  {
    if p == [] then []
    else if p[|p| - 1] == '/' then p[..|p| - 1]
    else ParentDir(p[..|p| - 1])
  }

  lemma {:induction false} ParentDirOfJoin(a: string, b: string)
    requires '/' !in b
    ensures ParentDir(a + "/" + b) == a
    decreases |b|
  {
    var p := a + "/" + b;
    if b == [] {
      assert p[..|p| - 1] == a;
    } else {
      var b' := b[..|b| - 1];
      assert p[..|p| - 1] == a + "/" + b';
      assert '/' !in b' by {
        forall i | 0 <= i < |b'| ensures b'[i] != '/' {
          assert b'[i] == b[i];
        }
      }
      ParentDirOfJoin(a, b');
    }
  }

  /** The file of tile (z, x, y) lies in exactly the directory
      `create_path(z, x)` makes. */
  lemma TileFileInItsDir(t: Tile)
    ensures TilePath(t) == DirPath(t.z, t.x) + "/" + IntToString(t.y) + ".pbf"
    ensures ParentDir(TilePath(t)) == DirPath(t.z, t.x)
  {
    var leaf := IntToString(t.y) + ".pbf";
    assert TilePath(t) == DirPath(t.z, t.x) + "/" + leaf;
    assert '/' !in leaf;
    ParentDirOfJoin(DirPath(t.z, t.x), leaf);
  }

  /** Position of the first '/' of a path, or its length when it has none. */
  function FirstSlash(p: string): (k: nat)
    ensures k <= |p|
    decreases |p|
  {
    if p == [] || p[0] == '/' then 0 else 1 + FirstSlash(p[1..])
  }

  lemma {:induction false} FirstSlashOfJoin(a: string, b: string)
    requires '/' !in a
    ensures FirstSlash(a + "/" + b) == |a|
    decreases |a|
  {
    if a != [] {
      assert (a + "/" + b)[1..] == a[1..] + "/" + b;
      assert '/' !in a[1..] by {
        forall i | 0 <= i < |a[1..]| ensures a[1..][i] != '/' {
          assert a[1..][i] == a[i + 1];
        }
      }
      FirstSlashOfJoin(a[1..], b);
    }
  }

  /** Splitting at the first '/' is unambiguous. */
  lemma SplitAtFirstSlash(a1: string, b1: string, a2: string, b2: string)
    requires '/' !in a1 && '/' !in a2
    requires a1 + "/" + b1 == a2 + "/" + b2
    ensures a1 == a2 && b1 == b2
  {
    var p := a1 + "/" + b1;
    FirstSlashOfJoin(a1, b1);
    FirstSlashOfJoin(a2, b2);
    assert a1 == p[..|a1|] == a2;
    assert b1 == p[|a1| + 1..] == b2;
  }

  /** Distinct (z, x) pairs give distinct directories. */
  lemma DirPathInjective(z1: int, x1: int, z2: int, x2: int)
    ensures DirPath(z1, x1) == DirPath(z2, x2) <==> z1 == z2 && x1 == x2
  {
    if DirPath(z1, x1) == DirPath(z2, x2) {
      SplitAtFirstSlash(IntToString(z1), IntToString(x1), IntToString(z2), IntToString(x2));
      IntToStringInjective(z1, z2);
      IntToStringInjective(x1, x2);
    }
  }

  lemma RegroupTilePath(z: string, x: string, y: string)
    ensures z + "/" + x + "/" + y + ".pbf" == z + "/" + (x + "/" + (y + ".pbf"))
  {
  }

  lemma StripSuffix(a: string, b: string, sfx: string)
    requires a + sfx == b + sfx
    ensures a == b
  {
    assert |a| == |b|;
    assert a == (a + sfx)[..|a|];
    assert b == (b + sfx)[..|b|];
  }

  /** Distinct tile addresses give distinct file paths, for every int value. */
  lemma TilePathInjective(t1: Tile, t2: Tile)
    ensures TilePath(t1) == TilePath(t2) <==> t1 == t2
  {
    if TilePath(t1) == TilePath(t2) {
      var z1, x1, y1 := IntToString(t1.z), IntToString(t1.x), IntToString(t1.y);
      var z2, x2, y2 := IntToString(t2.z), IntToString(t2.x), IntToString(t2.y);
      RegroupTilePath(z1, x1, y1);
      RegroupTilePath(z2, x2, y2);
      SplitAtFirstSlash(z1, x1 + "/" + (y1 + ".pbf"), z2, x2 + "/" + (y2 + ".pbf"));
      SplitAtFirstSlash(x1, y1 + ".pbf", x2, y2 + ".pbf");
      StripSuffix(y1, y2, ".pbf");
      IntToStringInjective(t1.z, t2.z);
      IntToStringInjective(t1.x, t2.x);
      IntToStringInjective(t1.y, t2.y);
    }
  }
}
