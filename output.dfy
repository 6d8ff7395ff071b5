/**
 What the walk leaves on disk. The working directory is a value: a set of
 directory names and a map from file name to contents. `create_path` calls
 `boost::filesystem::create_directories`, and `create_single_tile` opens an
 `ofstream` on the line-135 path and writes the tile's buffer into it. The
 buffer is the rendered, serialized tile, compressed when `--compress` was
 given. Rendering, serialization and compression are foreign code, so they
 are parameters here.
 */
module Output {
  import opened Decimal
  import opened TilePaths
  import opened Pyramid

  type Bytes = seq<bv8>

  /** `tile_size` and `path_multiplier` of `create_single_tile`. */
  const TileSize: int := 256
  const PathMultiplier: int := 16

  /** What the renderer is asked for: the stylesheet, the map's size in
      pixels, the backend's path multiplier and the tile address (from which
      `spherical_mercator::xyz` derives the bounding box). */
  datatype TileRequest = TileRequest(stylePath: string, tileSize: int, pathMultiplier: int, tile: Tile)

  /** The foreign code: Mapnik rendering followed by protobuf
      `SerializeToString`, and `mapnik::vector::compress`. */
  datatype Codecs = Codecs(render: TileRequest -> Bytes, compress: Bytes -> Bytes)

  /** The process-wide settings `create_single_tile` reads: the stylesheet
      path and the `compression` counter. */
  datatype Settings = Settings(stylePath: string, compression: int)

  function Request(settings: Settings, t: Tile): TileRequest {
    TileRequest(settings.stylePath, TileSize, PathMultiplier, t)
  }

  /** The buffer `create_single_tile` writes for tile t. */
  function Payload(codecs: Codecs, settings: Settings, t: Tile): Bytes {
    var buffer := codecs.render(Request(settings, t));
    if settings.compression != 0 then codecs.compress(buffer) else buffer
  }

  /** The working directory. */
  datatype FileSystem = FileSystem(dirs: set<string>, files: map<string, Bytes>)

  /** The proper parents of a relative path: its prefixes that end before a '/'. */
  function Parents(p: string): set<string> {
    set i | 0 < i < |p| && p[i] == '/' :: p[..i]
  }

  /** `boost::filesystem::create_directories(p)`: p and every missing parent
      of p become directories; existing ones are left alone. */
  function CreateDirectories(fs: FileSystem, p: string): FileSystem {
    fs.(dirs := fs.dirs + Parents(p) + {p})
  }

  /** `create_path(z, x)`. */
  function CreatePath(fs: FileSystem, z: int, x: int): FileSystem {
    CreateDirectories(fs, DirPath(z, x))
  }

  /** `ofstream output(p); output << content;`: the file is created or
      truncated and receives content when its directory exists; otherwise the
      stream fails to open and the write is silently lost. */
  function WriteFile(fs: FileSystem, p: string, content: Bytes): FileSystem {
    if ParentDir(p) == "" || ParentDir(p) in fs.dirs then fs.(files := fs.files[p := content]) else fs
  }

  /** `create_single_tile(z, x, y)`. */
  function CreateSingleTile(fs: FileSystem, codecs: Codecs, settings: Settings, t: Tile): FileSystem {
    WriteFile(fs, TilePath(t), Payload(codecs, settings, t))
  }

  /** The effect of one event of a trace. */
  function Apply(fs: FileSystem, codecs: Codecs, settings: Settings, e: Event): FileSystem {
    match e
    case MakeDir(z, x) => CreatePath(fs, z, x)
    case WriteTile(t) => CreateSingleTile(fs, codecs, settings, t)
  }

  /** The effect of a whole trace, event by event. */
  function Execute(fs: FileSystem, codecs: Codecs, settings: Settings, trace: seq<Event>): FileSystem
    decreases |trace|
  {
    if trace == [] then fs else Execute(Apply(fs, codecs, settings, trace[0]), codecs, settings, trace[1..])
  }

  /** The file names of a sequence of tiles. */
  function PathsOf(ts: seq<Tile>): set<string> {
    if ts == [] then {} else {TilePath(ts[0])} + PathsOf(ts[1..])
  }

  /** The directory names the MakeDir events of a trace create. */
  function DirsOf(trace: seq<Event>): set<string> {
    if trace == [] then {}
    else (if trace[0].MakeDir? then CreatedDirs(trace[0].z, trace[0].x) else {}) + DirsOf(trace[1..])
  }

  /** Every column directory in `made` exists in `dirs`. */
  predicate ColumnsExist(made: set<Column>, dirs: set<string>) {
    forall c :: c in made ==> DirPath(c.0, c.1) in dirs
  }

  // ---------------------------------------------------------------------------
  // Directories
  // ---------------------------------------------------------------------------

  lemma {:induction false} SlashFreeAt(s: string, i: int)
    requires '/' !in s && 0 <= i < |s|
    ensures s[i] != '/'
  {
    assert s[i] in s;
  }

  /** `create_path(z, x)` creates exactly the zoom directory and the column
      directory below it, and touches no file. */
  lemma CreatePathDirs(fs: FileSystem, z: int, x: int)
    ensures CreatePath(fs, z, x) == FileSystem(fs.dirs + CreatedDirs(z, x), fs.files)
  {
    var a, b := IntToString(z), IntToString(x);
    var p := DirPath(z, x);
    assert p == a + "/" + b;
    forall i | 0 <= i < |p| && i != |a| ensures p[i] != '/' {
      if i < |a| {
        assert p[i] == a[i];
        SlashFreeAt(a, i);
      } else {
        assert p[i] == b[i - |a| - 1];
        SlashFreeAt(b, i - |a| - 1);
      }
    }
    assert p[..|a|] == a;
    assert Parents(p) == {a};
  }

  /** Re-creating an existing directory changes nothing, so `create_path` is
      idempotent. */
  lemma CreatePathExisting(fs: FileSystem, z: int, x: int)
    ensures CreatedDirs(z, x) <= fs.dirs ==> CreatePath(fs, z, x) == fs
    ensures CreatePath(CreatePath(fs, z, x), z, x) == CreatePath(fs, z, x)
  {
    CreatePathDirs(fs, z, x);
    CreatePathDirs(CreatePath(fs, z, x), z, x);
  }

  // ---------------------------------------------------------------------------
  // Files
  // ---------------------------------------------------------------------------

  /** A tile file is written exactly when its column directory exists; the
      write stores the tile's buffer and changes nothing else. */
  lemma CreateSingleTileEffect(fs: FileSystem, codecs: Codecs, settings: Settings, t: Tile)
    ensures var r := CreateSingleTile(fs, codecs, settings, t);
            && r.dirs == fs.dirs
            && (DirPath(t.z, t.x) in fs.dirs ==> r.files == fs.files[TilePath(t) := Payload(codecs, settings, t)])
            && (DirPath(t.z, t.x) !in fs.dirs ==> r.files == fs.files)
  {
    TileFileInItsDir(t);
    assert |DirPath(t.z, t.x)| > 0;
  }

  lemma {:induction false} PathsOfCons(t: Tile, ts: seq<Tile>)
    ensures PathsOf([t] + ts) == {TilePath(t)} + PathsOf(ts)
  {
    assert ([t] + ts)[0] == t;
    assert ([t] + ts)[1..] == ts;
  }

  /** Replaying a trace adds exactly the directories its MakeDir events
      create, whether or not its writes succeed. */
  lemma {:induction false} ExecuteDirs(fs: FileSystem, codecs: Codecs, settings: Settings, trace: seq<Event>)
    ensures Execute(fs, codecs, settings, trace).dirs == fs.dirs + DirsOf(trace)
    decreases |trace|
  {
    if trace != [] {
      var e := trace[0];
      ExecuteDirs(Apply(fs, codecs, settings, e), codecs, settings, trace[1..]);
      if e.MakeDir? {
        CreatePathDirs(fs, e.z, e.x);
      } else {
        CreateSingleTileEffect(fs, codecs, settings, e.tile);
      }
    }
  }

  /** One event of a trace that makes directories before it writes: the
      columns known to exist still exist afterwards, and a tile write always
      succeeds. */
  lemma ApplyEffect(fs: FileSystem, codecs: Codecs, settings: Settings, e: Event, made: set<Column>)
    requires ColumnsExist(made, fs.dirs)
    requires e.WriteTile? ==> (e.tile.z, e.tile.x) in made
    ensures var r := Apply(fs, codecs, settings, e);
            && (e.MakeDir? ==> r.files == fs.files && ColumnsExist(made + {(e.z, e.x)}, r.dirs))
            && (e.WriteTile? ==>
                  r.files == fs.files[TilePath(e.tile) := Payload(codecs, settings, e.tile)]
                  && ColumnsExist(made, r.dirs))
  {
    if e.MakeDir? {
      CreatePathDirs(fs, e.z, e.x);
    } else {
      CreateSingleTileEffect(fs, codecs, settings, e.tile);
    }
  }

  /** Replaying a trace in which every tile's column directory is made before
      the tile is written (starting from directories that hold the columns in
      `made`): every written tile's file holds that tile's buffer; the file
      names are the old ones plus the written tiles'; every other file is
      unchanged. */
  lemma {:induction false} ExecuteFiles(fs: FileSystem, codecs: Codecs, settings: Settings,
                                        trace: seq<Event>, made: set<Column>)
    requires DirsFirst(trace, made) && ColumnsExist(made, fs.dirs)
    ensures var r := Execute(fs, codecs, settings, trace);
            && r.files.Keys == fs.files.Keys + PathsOf(Written(trace))
            && (forall t :: t in Written(trace) ==>
                  TilePath(t) in r.files && r.files[TilePath(t)] == Payload(codecs, settings, t))
            && (forall p :: p in fs.files && p !in PathsOf(Written(trace)) ==> p in r.files && r.files[p] == fs.files[p])
    decreases |trace|
  {
    if trace != [] {
      var e := trace[0];
      var rest := trace[1..];
      var fs' := Apply(fs, codecs, settings, e);
      assert trace == [e] + rest;
      DirsFirstCons(e, rest, made);
      WrittenAppend([e], rest);
      assert [e][1..] == [];
      ApplyEffect(fs, codecs, settings, e, made);
      if e.MakeDir? {
        ExecuteFiles(fs', codecs, settings, rest, made + {(e.z, e.x)});
        assert Written(trace) == Written(rest);
      } else {
        var t := e.tile;
        ExecuteFiles(fs', codecs, settings, rest, made);
        assert Written(trace) == [t] + Written(rest);
        PathsOfCons(t, Written(rest));
        PathsOfMembers(Written(rest), t);
      }
    }
  }

  /** A tile's file name is among those of a tile sequence exactly when the tile is. */
  lemma {:induction false} PathsOfMembers(ts: seq<Tile>, t: Tile)
    ensures TilePath(t) in PathsOf(ts) <==> t in ts
    decreases |ts|
  {
    if ts != [] {
      TilePathInjective(t, ts[0]);
      PathsOfMembers(ts[1..], t);
      assert ts == [ts[0]] + ts[1..];
    }
  }

  /** Distinct tiles have as many file names as there are tiles. */
  lemma {:induction false} PathsOfCount(ts: seq<Tile>)
    requires Distinct(ts)
    ensures |PathsOf(ts)| == |ts|
    decreases |ts|
  {
    if ts != [] {
      var rest := ts[1..];
      assert Distinct(rest) by {
        forall i, j | 0 <= i < j < |rest| ensures rest[i] != rest[j] {
          assert rest[i] == ts[i + 1] && rest[j] == ts[j + 1];
        }
      }
      PathsOfCount(rest);
      assert ts[0] !in rest by {
        forall j | 0 <= j < |rest| ensures rest[j] != ts[0] {
          assert rest[j] == ts[j + 1];
        }
      }
      PathsOfMembers(rest, ts[0]);
    }
  }

  // ---------------------------------------------------------------------------
  // The whole run
  // ---------------------------------------------------------------------------

  /** `create_path(minz, x); create_tiles(maxz, minz, x, y);` from `main`. */
  function Generate(fs: FileSystem, codecs: Codecs, settings: Settings,
                    minZoom: int, maxZoom: int, x: int, y: int): FileSystem
  {
    Execute(fs, codecs, settings, Run(minZoom, maxZoom, x, y))
  }

  /** After the run, a tile has a file exactly when it had one before or it
      belongs to the pyramid below (minZoom, x, y) down to maxZoom; the file
      of every pyramid tile holds its buffer, compressed exactly when
      `compression` is non-zero; every other file is as it was. */
  lemma GenerateFiles(fs: FileSystem, codecs: Codecs, settings: Settings,
                      minZoom: int, maxZoom: int, x: int, y: int, t: Tile)
    ensures var r := Generate(fs, codecs, settings, minZoom, maxZoom, x, y);
            && (TilePath(t) in r.files <==> TilePath(t) in fs.files || InPyramid(maxZoom, Tile(minZoom, x, y), t))
            && (InPyramid(maxZoom, Tile(minZoom, x, y), t) ==>
                  TilePath(t) in r.files && r.files[TilePath(t)]
                  == if settings.compression != 0
                     then codecs.compress(codecs.render(TileRequest(settings.stylePath, 256, 16, t)))
                     else codecs.render(TileRequest(settings.stylePath, 256, 16, t)))
  {
    var trace := Run(minZoom, maxZoom, x, y);
    RunDirsFirst(minZoom, maxZoom, x, y);
    ExecuteFiles(fs, codecs, settings, trace, {});
    RunWritten(minZoom, maxZoom, x, y);
    WalkCoverage(maxZoom, minZoom, x, y, t);
    PathsOfMembers(Written(trace), t);
  }

  lemma RunWritten(minZoom: int, maxZoom: int, x: int, y: int)
    ensures Written(Run(minZoom, maxZoom, x, y)) == Written(Walk(maxZoom, minZoom, x, y))
  {
    var m := MakeDir(minZoom, x);
    WrittenAppend([m], Walk(maxZoom, minZoom, x, y));
    assert [m][1..] == [];
  }

  /** Files that are not tile files of the pyramid are left as they were. */
  lemma GenerateKeepsOthers(fs: FileSystem, codecs: Codecs, settings: Settings,
                            minZoom: int, maxZoom: int, x: int, y: int, p: string)
    requires p in fs.files
    requires forall t :: InPyramid(maxZoom, Tile(minZoom, x, y), t) ==> TilePath(t) != p
    ensures var r := Generate(fs, codecs, settings, minZoom, maxZoom, x, y);
            p in r.files && r.files[p] == fs.files[p]
  {
    var trace := Run(minZoom, maxZoom, x, y);
    RunDirsFirst(minZoom, maxZoom, x, y);
    ExecuteFiles(fs, codecs, settings, trace, {});
    RunWritten(minZoom, maxZoom, x, y);
    PathsOfElements(Written(trace), p);
    forall t | t in Written(trace) ensures TilePath(t) != p {
      WalkCoverage(maxZoom, minZoom, x, y, t);
    }
  }

  lemma {:induction false} PathsOfElements(ts: seq<Tile>, p: string)
    ensures p in PathsOf(ts) <==> exists t :: t in ts && TilePath(t) == p
    decreases |ts|
  {
    if ts != [] {
      PathsOfElements(ts[1..], p);
      assert ts == [ts[0]] + ts[1..];
    }
  }

  /** The directories `create_path` makes for a set of columns: the zoom
      directory and the column directory of each. */
  function ColumnDirs(cs: set<Column>): set<string> {
    (set c | c in cs :: IntToString(c.0)) + (set c | c in cs :: DirPath(c.0, c.1))
  }

  lemma ColumnDirsUnion(a: set<Column>, b: set<Column>)
    ensures ColumnDirs(a + b) == ColumnDirs(a) + ColumnDirs(b)
  {
  }

  lemma ColumnDirsSingle(z: int, x: int)
    ensures ColumnDirs({(z, x)}) == CreatedDirs(z, x)
  {
    assert (set c | c in {(z, x)} :: IntToString(c.0)) == {IntToString(z)};
    assert (set c | c in {(z, x)} :: DirPath(c.0, c.1)) == {DirPath(z, x)};
  }

  /** The directories the `create_path` calls of a trace make are those of
      the columns they name. */
  lemma {:induction false} DirsOfColumns(trace: seq<Event>)
    ensures DirsOf(trace) == ColumnDirs(MadeColumns(trace))
    decreases |trace|
  {
    if trace != [] {
      var e := trace[0];
      DirsOfColumns(trace[1..]);
      var head: set<Column> := if e.MakeDir? then {(e.z, e.x)} else {};
      ColumnDirsUnion(head, MadeColumns(trace[1..]));
      if e.MakeDir? {
        ColumnDirsSingle(e.z, e.x);
      } else {
        assert ColumnDirs(head) == {};
      }
    }
  }

  lemma ColumnDirsCons(t0: Tile, rest: seq<Tile>)
    ensures ColumnDirs(TileColumns([t0] + rest)) == CreatedDirs(t0.z, t0.x) + ColumnDirs(TileColumns(rest))
  {
    assert ([t0] + rest)[0] == t0 && ([t0] + rest)[1..] == rest;
    ColumnDirsUnion({(t0.z, t0.x)}, TileColumns(rest));
    ColumnDirsSingle(t0.z, t0.x);
  }

  lemma SomeTileDirCons(t0: Tile, rest: seq<Tile>, d: string)
    ensures (exists t :: t in [t0] + rest && d in CreatedDirs(t.z, t.x))
            <==> d in CreatedDirs(t0.z, t0.x) || exists t :: t in rest && d in CreatedDirs(t.z, t.x)
  {
    if exists t :: t in rest && d in CreatedDirs(t.z, t.x) {
      var t :| t in rest && d in CreatedDirs(t.z, t.x);
      assert t in [t0] + rest;
    }
    assert t0 in [t0] + rest;
  }

  /** A name is among the directories of the columns of some tiles exactly
      when it is the zoom or column directory of one of them. */
  lemma {:induction false} TileColumnsDirs(ts: seq<Tile>, d: string)
    ensures d in ColumnDirs(TileColumns(ts)) <==> exists t :: t in ts && d in CreatedDirs(t.z, t.x)
    decreases |ts|
  {
    if ts == [] {
      assert ColumnDirs({}) == {};
    } else {
      TileColumnsDirs(ts[1..], d);
      assert ts == [ts[0]] + ts[1..];
      ColumnDirsCons(ts[0], ts[1..]);
      SomeTileDirCons(ts[0], ts[1..], d);
    }
  }

  /** After the run, the directories are the old ones plus the zoom directory
      `<z>` and the column directory `<z>/<x>` of every pyramid tile, and no
      others: the `<z>/<x>/` layout the tile files sit in. */
  lemma GenerateDirs(fs: FileSystem, codecs: Codecs, settings: Settings,
                     minZoom: int, maxZoom: int, x: int, y: int, d: string)
    ensures var r := Generate(fs, codecs, settings, minZoom, maxZoom, x, y);
            d in r.dirs <==> d in fs.dirs || exists t :: InPyramid(maxZoom, Tile(minZoom, x, y), t) && d in CreatedDirs(t.z, t.x)
  {
    var trace := Run(minZoom, maxZoom, x, y);
    var ws := Written(Walk(maxZoom, minZoom, x, y));
    ExecuteDirs(fs, codecs, settings, trace);
    DirsOfColumns(trace);
    RunColumns(minZoom, maxZoom, x, y);
    TileColumnsDirs(ws, d);
    forall t ensures t in ws <==> InPyramid(maxZoom, Tile(minZoom, x, y), t) {
      WalkCoverage(maxZoom, minZoom, x, y, t);
    }
  }

  /** After the run, the file names are the old ones plus the file name of
      every pyramid tile, and no others. */
  lemma GenerateFileNames(fs: FileSystem, codecs: Codecs, settings: Settings,
                          minZoom: int, maxZoom: int, x: int, y: int, p: string)
    ensures var r := Generate(fs, codecs, settings, minZoom, maxZoom, x, y);
            p in r.files <==> p in fs.files || exists t :: InPyramid(maxZoom, Tile(minZoom, x, y), t) && TilePath(t) == p
  {
    var trace := Run(minZoom, maxZoom, x, y);
    RunDirsFirst(minZoom, maxZoom, x, y);
    ExecuteFiles(fs, codecs, settings, trace, {});
    RunWritten(minZoom, maxZoom, x, y);
    PathsOfElements(Written(trace), p);
    forall t ensures t in Written(trace) <==> InPyramid(maxZoom, Tile(minZoom, x, y), t) {
      WalkCoverage(maxZoom, minZoom, x, y, t);
    }
  }

  /** Into an empty directory, the run creates one file per pyramid tile,
      (4^(levels) - 1) / 3 files in all. */
  lemma GenerateFileCount(codecs: Codecs, settings: Settings, minZoom: int, maxZoom: int, x: int, y: int)
    ensures var r := Generate(FileSystem({}, map[]), codecs, settings, minZoom, maxZoom, x, y);
            && |r.files| == GeomSum(Depth(maxZoom, minZoom))
            && 3 * |r.files| + 1 == Pow4(Depth(maxZoom, minZoom) + 1)
  {
    var trace := Run(minZoom, maxZoom, x, y);
    var r := Generate(FileSystem({}, map[]), codecs, settings, minZoom, maxZoom, x, y);
    RunDirsFirst(minZoom, maxZoom, x, y);
    ExecuteFiles(FileSystem({}, map[]), codecs, settings, trace, {});
    RunWritten(minZoom, maxZoom, x, y);
    WalkDistinct(maxZoom, minZoom, x, y);
    WalkTileCount(maxZoom, minZoom, x, y);
    PathsOfCount(Written(trace));
    assert r.files.Keys == PathsOf(Written(trace));
    assert |r.files| == |r.files.Keys|;
    GeomSumClosedForm(Depth(maxZoom, minZoom));
  }
}
