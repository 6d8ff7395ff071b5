# vector-tiles-producer: the tile pyramid, its files and its command line

`create_tiles` renders a pyramid of Mapnik vector tiles. Its command line is
`create_tiles [--compress] minz maxz x y path/to/stylesheet.xml`. It starts
from tile (minz, x, y) and descends depth first to zoom level maxz. Each tile
is written to `"<z>/<x>/<y>.pbf"` under the working directory, and before a
level is entered its column directories `"<z>/<x>"` are created. This project
models that program in Dafny and proves what it does:

- `decimal.dfy` (module `Decimal`): `std::to_string` of an `int`, with a
  reader that inverts it. The inverse makes every path built from these
  texts unambiguous.
- `tile_paths.dfy` (module `TilePaths`): the tile address, the directory
  string of `create_path`, and the file name built at line 135. It proves
  that the file lies in that directory and that distinct addresses (of any
  sign) give distinct names.
- `pyramid.dfy` (module `Pyramid`): `create_tiles` as the trace of its side
  effects (`MakeDir(z, x)` for `create_path`, `WriteTile(t)` for
  `create_single_tile`), and `main`'s entry sequence. It proves:
  - which tiles are written, each exactly once (against a reference
    definition by repeated halving of coordinates);
  - how many tiles are written and how many `create_path` calls are made;
  - which column directories are asked for: exactly the columns the tiles
    lie in;
  - the visiting order and the coordinate bounds;
  - that a tile's directory always exists before the tile is written.
- `output.dfy` (module `Output`): the working directory as a value, a set of
  directories plus a map from file name to bytes. `create_directories`,
  `ofstream` and the compress branch act on it. It proves which files and
  directories the whole run leaves behind, and what the files contain.
- `command_line.dfy` (module `CommandLine`): the in-place removal of
  `--compress` arguments from `argv` (a method over an array, with loop
  invariants), the usage check, the positional arguments, and the start of
  `main` (`Start` as written; `StartIntended` with the usage check
  corrected).

Two behaviours of the program that a reader might not expect are modelled as
the code has them:

- The `ofstream` at line 135 is never checked. A tile file whose directory
  is missing is therefore silently not written, and the run goes on.
- The usage check at line 43 tests `argc`, which still counts the
  `--compress` arguments the loop at lines 36-41 has just removed. The usage
  message at line 44 describes exactly one optional `--compress` before five
  positional arguments (see Findings).

## Model

| member | source | states |
|---|---|---|
| Decimal.IntToString | create_tiles.cpp:73 | the `to_string` text of an int is non-empty and contains no '/' |
| Decimal.ParseIntToString | create_tiles.cpp:73 | reading the decimal text of any integer back gives that integer |
| Decimal.IntToStringInjective | create_tiles.cpp:73 | two integers have the same decimal text exactly when they are equal |
| TilePaths.DirPath | create_tiles.cpp:73 | the `pathname` of `create_path(z, x)`, `to_string(z) + "/" + to_string(x)`; its properties are stated by TileFileInItsDir and DirPathInjective |
| TilePaths.TilePath | create_tiles.cpp:135 | the file name the `ofstream` opens, `"<z>/<x>/<y>.pbf"`; its properties are stated by TileFileInItsDir and TilePathInjective |
| TilePaths.TileFileInItsDir | create_tiles.cpp:73-76 | the tile file name is the `create_path` string of (z, x) followed by "/" + to_string(y) + ".pbf", and its parent directory is exactly that string |
| TilePaths.DirPathInjective | create_tiles.cpp:73 | `"<z>/<x>"` strings are equal exactly when the (z, x) pairs are |
| TilePaths.TilePathInjective | create_tiles.cpp:135 | tile file names are equal exactly when the tile addresses are, for all int values |
| Pyramid.Walk | create_tiles.cpp:82-96 | the trace of `create_tiles(maxz, z, x, y)`: the tile's own write (line 84), then Below; what it writes is stated by WalkCoverage, WalkDistinct, WalkChildrenInOrder and WalkTileCount, its directories by WalkColumns and WalkDirsFirst |
| Pyramid.Below | create_tiles.cpp:86-95 | the `if (z+1 <= maxz)` block: the two `create_path` calls of lines 87-88, then Descend; empty at the last level |
| Pyramid.Descend | create_tiles.cpp:91-94 | the four recursive calls, in the source's order |
| Pyramid.Run | create_tiles.cpp:60-61 | `main`'s entry sequence: `create_path(minz, x)`, then the walk from (minz, x, y) |
| Pyramid.WalkSplit | create_tiles.cpp:82-96 | the tiles of a non-leaf call are its own tile followed by the tiles of its four child calls; it makes 2 `create_path` calls plus those of the children |
| Pyramid.WalkOwnTileFirst | create_tiles.cpp:84 | every call's first event writes its own tile, and that is the only tile it writes on its own level |
| Pyramid.WalkChildrenInOrder | create_tiles.cpp:91-94 | the tiles a non-leaf call writes one level down are exactly (2x, 2y), (2x+1, 2y), (2x, 2y+1), (2x+1, 2y+1), in that order |
| Pyramid.WalkCoverage | create_tiles.cpp:82-96 | a tile is written exactly when it is in the pyramid below the root down to maxz: at or below the root level, at most maxz unless it is the root, and halving its coordinates down to the root level gives the root |
| Pyramid.InPyramidStep | create_tiles.cpp:86-94 | a pyramid that goes below its root consists of the root and the pyramids of its four children |
| Pyramid.PyramidsDisjoint | create_tiles.cpp:91-94 | pyramids of two different tiles on one level share no tile |
| Pyramid.WalksDisjoint | create_tiles.cpp:91-94 | the calls for two different tiles on one level write no common tile |
| Pyramid.WalkDistinct | create_tiles.cpp:82-96 | no tile is written twice |
| Pyramid.WalkTileCount | create_tiles.cpp:82-96 | a call writes 1 + 4 + ... + 4^(maxz - z) tiles, and exactly one tile when z + 1 > maxz (including maxz < z) |
| Pyramid.WalkPathCalls | create_tiles.cpp:86-88 | a call makes no `create_path` call when z + 1 > maxz, and otherwise two per non-leaf tile: 2 (1 + 4 + ... + 4^(maxz - z - 1)) calls; many of them re-create a directory that already exists |
| Pyramid.GeomSumClosedForm | create_tiles.cpp:82-96 | 3 (1 + 4 + ... + 4^n) + 1 = 4^(n+1) |
| Pyramid.WalkColumns | create_tiles.cpp:84-94 | the columns (z', x') a call's tiles lie in are exactly its root's column and the columns it calls `create_path` for: no directory is made without a tile in it, and every tile below the root has its directory made |
| Pyramid.RunColumns | create_tiles.cpp:60-61 | the columns `main`'s entry sequence calls `create_path` for are exactly the columns of the tiles it writes |
| Pyramid.WalkBounds | create_tiles.cpp:86-94 | from a root with 0 <= x, y < 2^z, every written tile (z', x', y') has z <= z', z' <= maxz unless it is the root, and 0 <= x', y' < 2^z'; every `create_path(z', x')` call has z < z' <= maxz and 0 <= x' < 2^z' |
| Pyramid.WalkDirBounds | create_tiles.cpp:86-94 | every `create_path` call of a walk is for a level between z + 1 and maxz and a column inside the grid of its level |
| Pyramid.InGridFromAncestor | create_tiles.cpp:91-94 | a tile whose ancestor k levels up is inside the grid of its level is inside the grid of its own level |
| Pyramid.WalkDirsFirst | create_tiles.cpp:84-94 | once a call's own column directory exists, it writes no tile before that tile's column directory has been made |
| Pyramid.RunDirsFirst | create_tiles.cpp:60-61 | from no directories at all, `create_path(minz, x)` followed by the walk writes every tile after its column directory has been made |
| Pyramid.DirsFirstAt | create_tiles.cpp:87-88 | read event by event: at every tile write, the tile's column is among those made by the earlier events |
| Pyramid.DirsFirstConcat | create_tiles.cpp:91-94 | two traces that each make directories before writing still do so one after the other |
| Pyramid.SmallPyramid | create_tiles.cpp:60-61 | from (0, 0, 0) down to level 1 the run is: make 0/0, tile (0,0,0), make 1/0 and 1/1, then tiles (1,0,0), (1,1,0), (1,0,1), (1,1,1) |
| Output.Payload | create_tiles.cpp:127-130 | the buffer of a tile: `render` of (stylesheet, 256, 16, tile), passed through `compress` exactly when `compression` is non-zero; stated for the whole run by GenerateFiles |
| Output.CreateDirectories | create_tiles.cpp:76 | `create_directories(p)`: p and all its proper parents become directories; stated for `create_path` by CreatePathDirs and CreatePathExisting |
| Output.CreatePath | create_tiles.cpp:72-77 | `create_path(z, x)`: `create_directories` of DirPath(z, x); stated by CreatePathDirs and CreatePathExisting |
| Output.WriteFile | create_tiles.cpp:135-136 | the `ofstream` write: it stores the content when the parent directory exists and is silently lost otherwise; stated by CreateSingleTileEffect |
| Output.CreateSingleTile | create_tiles.cpp:101-137 | `create_single_tile`: WriteFile of the tile's Payload under TilePath; stated by CreateSingleTileEffect |
| Output.Generate | create_tiles.cpp:60-61 | the working directory after `create_path(minz, x)` and the walk; stated by GenerateFiles, GenerateFileNames, GenerateDirs, GenerateKeepsOthers and GenerateFileCount |
| Output.CreatePathDirs | create_tiles.cpp:72-77 | `create_path(z, x)` adds exactly the directories "<z>" and "<z>/<x>" and touches no file |
| Output.CreatePathExisting | create_tiles.cpp:76 | re-creating existing directories changes nothing, and `create_path` is idempotent |
| Output.CreateSingleTileEffect | create_tiles.cpp:127-136 | a tile write leaves the directories alone; it stores the tile's buffer under its file name when the column directory exists and is lost otherwise |
| Output.ExecuteDirs | create_tiles.cpp:72-77 | replaying a trace adds exactly the directories its `create_path` calls create, whether or not its writes succeed |
| Output.DirsOfColumns | create_tiles.cpp:72-77 | the directories the `create_path` calls of a trace make are the zoom and column directories of the columns they name |
| Output.ExecuteFiles | create_tiles.cpp:127-136 | replaying a trace that makes directories before writing: the file names are the old ones plus those of the written tiles, each holds its tile's buffer, and every other file is unchanged |
| Output.PathsOfCount | create_tiles.cpp:135 | distinct tiles have as many file names as there are tiles |
| Output.GenerateFiles | create_tiles.cpp:60-61 | after the run, a tile has a file exactly when it had one or is in the pyramid, and each pyramid tile's file holds compress(render(stylesheet, 256, 16, tile)) when `compression` is non-zero and render(stylesheet, 256, 16, tile) when it is zero |
| Output.GenerateFileNames | create_tiles.cpp:60-61 | after the run, a name is a file exactly when it was one before or is the file name of a pyramid tile |
| Output.GenerateDirs | create_tiles.cpp:60-61 | after the run, a name is a directory exactly when it was one before or is the zoom directory `<z>` or the column directory `<z>/<x>` of a pyramid tile: the `<z>/<x>/` layout the tile files sit in |
| Output.GenerateKeepsOthers | create_tiles.cpp:60-61 | a file that is no pyramid tile's file is left as it was |
| Output.GenerateFileCount | create_tiles.cpp:60-61 | into an empty directory the run writes (4^(maxz - minz + 1) - 1) / 3 files (one when maxz <= minz) |
| CommandLine.IsCompressFlag | create_tiles.cpp:39 | `strncmp(argv[i], "--compress", 10) == 0`: the argument starts with "--compress"; counted by CountFlags and removed by Kept |
| CommandLine.CountFlags | create_tiles.cpp:39-40 | the number of `--compress` arguments is at most the number of arguments |
| CommandLine.Kept | create_tiles.cpp:36-41 | the arguments left when the `--compress` ones are removed number the total minus the flag count |
| CommandLine.KeptHasNoFlag | create_tiles.cpp:39 | no remaining argument starts with "--compress" |
| CommandLine.KeptAppend | create_tiles.cpp:36-41 | removal and counting go piece by piece, so the remaining arguments keep their relative order |
| CommandLine.KeptWithoutFlags | create_tiles.cpp:36-41 | none is counted exactly when no argument is a `--compress` argument, and then nothing is removed |
| CommandLine.CompactedArgs | create_tiles.cpp:36-41 | the loop's final `argv` keeps its length and holds the remaining arguments packed from index 0 |
| CommandLine.CompactingStep | create_tiles.cpp:37-40 | one round of the loop keeps the invariant: the remaining arguments seen so far packed from 0, one slot of the last argument seen, the rest untouched |
| CommandLine.CompactArguments | create_tiles.cpp:36-41 | the loop leaves `compression` equal to the number of `--compress` arguments and `argv` equal to CompactedArgs of its old contents |
| CommandLine.ParseArguments | create_tiles.cpp:43-53 | line 43 as written, then the fields read from the compacted `argv`; stated by ParseArgumentsResult |
| CommandLine.ParseArgumentsIntended | create_tiles.cpp:43-53 | the corrected check `argc - compression == 6`, then the same fields; stated by ParseArgumentsIntendedResult |
| CommandLine.ParseArgumentsResult | create_tiles.cpp:43-53 | as written, the usage check passes exactly when the original argc is 6 or 7; then minz, maxz, x, y and the stylesheet are the remaining arguments 1 to 5, as long as there are that many |
| CommandLine.ParseArgumentsIntendedResult | create_tiles.cpp:43-53 | with the flag count taken off argc, the check passes exactly when five arguments remain after the program name, and the fields are those five in order |
| CommandLine.ParseArgumentsAgree | create_tiles.cpp:43-53 | for five positional arguments and at most one `--compress`, the written and the corrected checks agree |
| CommandLine.ParseArgumentsAcceptsMissingStylesheet | create_tiles.cpp:43-53 | as written, `create_tiles --compress 0 1 0 0` passes the check with only four positional arguments and reads "0" as the stylesheet; the corrected check rejects it |
| CommandLine.Start | create_tiles.cpp:35-61 | `main` up to the walk, as written: compacts `argv`; exits with status 1 and no effect exactly when line 43's test of argc for 6 or 7 fails; otherwise makes the root directory and walks with the fields read from the compacted `argv` and the flag count |
| CommandLine.StartIntended | create_tiles.cpp:35-61 | the same with the corrected usage check: the walk starts exactly when five arguments remain besides the program name |

## Left out

- Map construction, `load_map`, `zoom_to_box` and `processor::apply` (lines 108-125) are foreign rendering code. Together with `SerializeToString` (line 127) they are the parameter `render`. It receives the stylesheet, the sizes 256 and 16, and the tile.
- The `spherical_mercator::xyz` bounding box (lines 112-116) is floating-point projection code. It is part of `render`, computed from the tile address it receives.
- `mapnik::vector::compress` (line 129) is foreign code and is the parameter `compress`.
- GenerateFiles: `render` and `compress` are total functions, so the model assumes `load_map` (line 109), `ren.apply()` (line 125), `SerializeToString` (line 127) and `compress` (line 129) never fail. In the source a throw from any of them is not caught. It ends the program at the first failing tile, after `create_path(minz, x)` and the tiles before it have been written. An unreadable stylesheet, such as "0" in the Findings input, is one way to get there.
- WriteFile: the model writes the file whenever its parent directory exists. It does not model an `ofstream` that fails because a directory already has the tile's file name.
- `atoi` (lines 49-52) is the parameter `atoi` of the parsing functions and of both start methods.
- Datasource registration and the protobuf setup and shutdown (lines 56, 58, 64) are environment setup with no effect on the tiles.
- Every console message (lines 44-45, 62, 74, 131, 133) is left out. The usage error is modelled only by its exit status.
- C `int` is modelled by mathematical integers. `2*x`, `2*x+1` and `z+1` overflowing 32 bits at high zoom levels, and `atoi` of out-of-range text, are not modelled.
- Failures of `create_directories` are not modelled: creation always succeeds. In the source such a failure throws and ends the program; examples are a file in the way or a permission error.
- The filesystem is a value: directory names and file contents relative to the working directory. Concurrent changes by other processes, and partially written files, are not modelled.
- Start: the work after the walk (the final message and the protobuf shutdown) is not modelled, and the returned status is 0 once the walk is done. The same holds for StartIntended.

## Findings

| source | as written | input that shows it | evidently intended | confidence | as-written member | corrected member |
|---|---|---|---|---|---|---|
| create_tiles.cpp:43 | the usage check tests `argc`, which still counts the `--compress` arguments the loop at lines 36-41 just removed | `create_tiles --compress 0 1 0 0` (argc 6) passes, y = 0 and the stylesheet is read from "0"; `create_tiles 0 1 0 0 s.xml extra` (argc 7, no flag) passes too | exactly five positional arguments must remain: `argc - compression == 6` | not executed | CommandLine.ParseArgumentsAcceptsMissingStylesheet | CommandLine.ParseArgumentsIntendedResult |
