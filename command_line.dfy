/**
 The command line of `main`: the loop that removes every `--compress`
 argument from `argv` by shifting the rest to the left, counting them in
 `compression`; the usage check on `argc`; the positional arguments
 `minz maxz x y stylesheet`; and the entry sequence that starts the walk.
 */
module CommandLine {
  import opened TilePaths
  import opened Pyramid
  import opened Output

  datatype Option<T> = None | Some(value: T)

  /** `strncmp(arg, "--compress", 10) == 0`: the argument starts with
      "--compress" (a C string ends at its terminator, so a shorter argument
      differs). */
  predicate IsCompressFlag(arg: string) {
    |arg| >= 10 && arg[..10] == "--compress"
  }

  /** The number of `--compress` arguments. */
  function CountFlags(args: seq<string>): (c: nat)
    ensures c <= |args|
    decreases |args|
  {
    if args == [] then 0
    else CountFlags(args[..|args| - 1]) + (if IsCompressFlag(args[|args| - 1]) then 1 else 0)
  }

  /** The arguments that are not `--compress`, in their original order: all
      of them but the `--compress` ones. */
  function Kept(args: seq<string>): (k: seq<string>)
    ensures |k| + CountFlags(args) == |args|
    decreases |args|
  {
    if args == [] then []
    else Kept(args[..|args| - 1]) + (if IsCompressFlag(args[|args| - 1]) then [] else [args[|args| - 1]])
  }

  /** Nothing that remains is a `--compress` argument. */
  lemma {:induction false} KeptHasNoFlag(args: seq<string>)
    ensures forall j :: 0 <= j < |Kept(args)| ==> !IsCompressFlag(Kept(args)[j])
    decreases |args|
  {
    if args != [] {
      KeptHasNoFlag(args[..|args| - 1]);
    }
  }

  /** Removal works piece by piece, so the remaining arguments keep their
      relative order; without a `--compress` argument nothing is removed. */
  lemma {:induction false} KeptAppend(a: seq<string>, b: seq<string>)
    ensures Kept(a + b) == Kept(a) + Kept(b)
    ensures CountFlags(a + b) == CountFlags(a) + CountFlags(b)
    decreases |b|
  {
    if b == [] {
      assert a + b == a;
    } else {
      var b' := b[..|b| - 1];
      assert (a + b)[..|a + b| - 1] == a + b';
      assert (a + b)[|a + b| - 1] == b[|b| - 1];
      KeptAppend(a, b');
    }
  }

  /** No argument is a `--compress` argument exactly when none is counted,
      and then nothing is removed. */
  lemma {:induction false} KeptWithoutFlags(args: seq<string>)
    ensures CountFlags(args) == 0 <==> forall j :: 0 <= j < |args| ==> !IsCompressFlag(args[j])
    ensures CountFlags(args) == 0 ==> Kept(args) == args
    decreases |args|
  {
    if args != [] {
      var init, last := args[..|args| - 1], args[|args| - 1];
      KeptWithoutFlags(init);
      assert (forall j :: 0 <= j < |args| ==> !IsCompressFlag(args[j]))
             <==> (forall j :: 0 <= j < |init| ==> !IsCompressFlag(init[j])) && !IsCompressFlag(last) by {
        assert forall j :: 0 <= j < |init| ==> init[j] == args[j];
      }
    }
  }

  /** `argv` after the loop: the remaining arguments packed from index 0,
      then one slot holding the last argument if that is a `--compress`
      argument and its own old value otherwise, then the old values. */
  function CompactedArgs(args: seq<string>): (r: seq<string>)
    ensures |r| == |args|
    ensures r[..|args| - CountFlags(args)] == Kept(args)
  {
    var c := CountFlags(args);
    var n := |args|;
    if c == 0 then KeptWithoutFlags(args); args
    else Kept(args) + [if IsCompressFlag(args[n - 1]) then args[n - 1] else args[n - c]] + args[n - c + 1..]
  }

  /** The state of `argv` after the first i rounds of the loop, with c
      `--compress` arguments met so far: the remaining ones among the first i
      are packed from index 0; the next slot holds the last argument seen if
      that was a `--compress` argument and its old value otherwise; the slots
      after it are untouched. */
  predicate Compacting(a0: seq<string>, cur: seq<string>, i: nat, c: nat) {
    && i <= |a0| == |cur|
    && c == CountFlags(a0[..i])
    && cur[..i - c] == Kept(a0[..i])
    && (forall j :: i - c < j < |a0| ==> cur[j] == a0[j])
    && (i - c < |a0| ==> cur[i - c] == if i > 0 && IsCompressFlag(a0[i - 1]) then a0[i - 1] else a0[i - c])
  }

  /** One round of the loop keeps Compacting. */
  lemma CompactingStep(a0: seq<string>, cur: seq<string>, i: nat, c: nat)
    requires Compacting(a0, cur, i, c) && i < |a0|
    ensures var next := if c != 0 then cur[i - c := cur[i]] else cur;
            Compacting(a0, next, i + 1, if IsCompressFlag(a0[i]) then c + 1 else c)
  {
    assert a0[..i + 1][..i] == a0[..i];
    var next := if c != 0 then cur[i - c := cur[i]] else cur;
    assert cur[i] == a0[i];
    if !IsCompressFlag(a0[i]) {
      assert next[..i + 1 - c] == cur[..i - c] + [a0[i]];
    }
  }

  /** Compacting after the last round, spelled out for the whole of `argv`. */
  lemma CompactingFinal(a0: seq<string>, cur: seq<string>, c: nat)
    requires Compacting(a0, cur, |a0|, c)
    ensures c == CountFlags(a0) && c <= |a0| == |cur|
    ensures cur[..|a0| - c] == Kept(a0)
    ensures c > 0 ==> cur[|a0| - c + 1..] == a0[|a0| - c + 1..]
    ensures c > 0 ==> cur[|a0| - c] == if IsCompressFlag(a0[|a0| - 1]) then a0[|a0| - 1] else a0[|a0| - c]
  {
    assert a0[..|a0|] == a0;
  }

  /** The packed shape with at least one `--compress` argument is CompactedArgs. */
  lemma PackedIsCompacted(a0: seq<string>, cur: seq<string>, c: nat)
    requires c == CountFlags(a0) && 0 < c <= |a0| == |cur|
    requires cur[..|a0| - c] == Kept(a0)
    requires cur[|a0| - c + 1..] == a0[|a0| - c + 1..]
    requires cur[|a0| - c] == if IsCompressFlag(a0[|a0| - 1]) then a0[|a0| - 1] else a0[|a0| - c]
    ensures cur == CompactedArgs(a0)
  {
    Reassemble(cur, |a0| - c);
  }

  /** After the last round, `argv` is CompactedArgs of the original. */
  lemma CompactingDone(a0: seq<string>, cur: seq<string>, c: nat)
    requires Compacting(a0, cur, |a0|, c)
    ensures c == CountFlags(a0) && cur == CompactedArgs(a0)
  {
    CompactingFinal(a0, cur, c);
    if c == 0 {
      assert Kept(a0) == a0 by { KeptWithoutFlags(a0); }
      assert cur == cur[..|a0|];
    } else {
      PackedIsCompacted(a0, cur, c);
    }
  }

  lemma Reassemble<T>(s: seq<T>, k: nat)
    requires k < |s|
    ensures s == s[..k] + [s[k]] + s[k + 1..]
  {
  }

  /** The loop of `main` over `argv[0..argc)`: each argument moves
      `compression` places to the left, and a `--compress` argument makes
      later ones move one place further. */
  method CompactArguments(argv: array<string>) returns (compression: nat)
    modifies argv
    ensures compression == CountFlags(old(argv[..]))
    ensures argv[..] == CompactedArgs(old(argv[..]))
  {
    ghost var a0 := argv[..];
    var n := argv.Length;
    compression := 0;
    var i := 0;
    while i < n
      invariant 0 <= i <= n
      invariant Compacting(a0, argv[..], i, compression)
    {
      CompactingStep(a0, argv[..], i, compression);
      if compression != 0 {
        argv[i - compression] := argv[i];
      }
      if IsCompressFlag(argv[i]) {
        compression := compression + 1;
      }
      i := i + 1;
    }
    CompactingDone(a0, argv[..], compression);
  }

  /** The positional arguments. */
  datatype Config = Config(minZoom: int, maxZoom: int, x: int, y: int, stylePath: string)

  /** Lines 43-53 as written: the usage check looks at the `argc` passed in,
      which counts the removed `--compress` arguments, and the fields are then
      read from the compacted `argv`. `atoi` is a parameter. */
  function ParseArguments(args: seq<string>, atoi: string -> int): Option<Config> {
    if |args| != 6 && |args| != 7 then None
    else
      var a := CompactedArgs(args);
      Some(Config(atoi(a[1]), atoi(a[2]), atoi(a[3]), atoi(a[4]), a[5]))
  }

  /** The usage check passes exactly for six or seven arguments, whatever
      they are; the fields are then the remaining (non-`--compress`)
      arguments 1 to 5, as far as there are that many. */
  lemma ParseArgumentsResult(args: seq<string>, atoi: string -> int)
    ensures ParseArguments(args, atoi).Some? <==> |args| == 6 || |args| == 7
    ensures ParseArguments(args, atoi).Some? && |Kept(args)| >= 6 ==>
              ParseArguments(args, atoi).value
              == Config(atoi(Kept(args)[1]), atoi(Kept(args)[2]), atoi(Kept(args)[3]), atoi(Kept(args)[4]), Kept(args)[5])
  {
    if |args| == 6 || |args| == 7 {
      var a := CompactedArgs(args);
      var k := Kept(args);
      if |k| >= 6 {
        assert a[..|args| - CountFlags(args)] == k;
        assert a[1] == k[1] && a[2] == k[2] && a[3] == k[3] && a[4] == k[4] && a[5] == k[5];
      }
    }
  }

  /** The usage check with the count of `--compress` arguments taken off
      `argc`, as the usage text "[--compress] minz maz x y
      path/to/stylesheet.xml" describes. */
  function ParseArgumentsIntended(args: seq<string>, atoi: string -> int): Option<Config> {
    if |args| - CountFlags(args) != 6 then None
    else
      var a := CompactedArgs(args);
      Some(Config(atoi(a[1]), atoi(a[2]), atoi(a[3]), atoi(a[4]), a[5]))
  }

  /** The corrected check passes exactly when five arguments besides the
      program name remain, and then the fields are those five, in order. */
  lemma ParseArgumentsIntendedResult(args: seq<string>, atoi: string -> int)
    ensures ParseArgumentsIntended(args, atoi).Some? <==> |Kept(args)| == 6
    ensures |Kept(args)| == 6 ==>
              ParseArgumentsIntended(args, atoi).value
              == Config(atoi(Kept(args)[1]), atoi(Kept(args)[2]), atoi(Kept(args)[3]), atoi(Kept(args)[4]), Kept(args)[5])
  {
    if |Kept(args)| == 6 {
      var a := CompactedArgs(args);
      var k := Kept(args);
      assert a[..6] == k;
      assert a[1] == k[1] && a[2] == k[2] && a[3] == k[3] && a[4] == k[4] && a[5] == k[5];
    }
  }

  /** On every command line the usage text describes (five arguments and at
      most one `--compress`), the code as written and the corrected check
      agree. */
  lemma ParseArgumentsAgree(args: seq<string>, atoi: string -> int)
    requires |Kept(args)| == 6 && CountFlags(args) <= 1
    ensures ParseArguments(args, atoi) == ParseArgumentsIntended(args, atoi)
  {
  }

  /** As written, `create_tiles --compress 0 1 0 0` passes the usage check
      although it gives only four of the five positional arguments: the last
      one is read both as y and as the stylesheet path. The corrected check
      rejects it. */
  lemma ParseArgumentsAcceptsMissingStylesheet(atoi: string -> int)
    ensures var args := ["create_tiles", "--compress", "0", "1", "0", "0"];
            && |Kept(args)| == 5
            && ParseArguments(args, atoi) == Some(Config(atoi("0"), atoi("1"), atoi("0"), atoi("0"), "0"))
            && ParseArgumentsIntended(args, atoi) == None
  {
    var args := ["create_tiles", "--compress", "0", "1", "0", "0"];
    assert IsCompressFlag(args[1]);
    assert args[0][..10][0] == 'c';
    assert |args[2]| == 1 && |args[3]| == 1 && |args[4]| == 1 && |args[5]| == 1;
    assert args[..1] == ["create_tiles"];
    assert args[..2][..1] == args[..1];
    assert args[..3][..2] == args[..2];
    assert args[..4][..3] == args[..3];
    assert args[..5][..4] == args[..4];
    assert args[..5] == args[..|args| - 1];
    assert CountFlags(args[..1]) == 0 && Kept(args[..1]) == ["create_tiles"];
    assert CountFlags(args[..2]) == 1 && Kept(args[..2]) == ["create_tiles"];
    assert CountFlags(args[..3]) == 1;
    assert CountFlags(args[..4]) == 1;
    assert CountFlags(args[..5]) == 1;
    assert CountFlags(args) == 1;
    assert Kept(args) == ["create_tiles", "0", "1", "0", "0"] by {
      assert Kept(args[..3]) == ["create_tiles", "0"];
      assert Kept(args[..4]) == ["create_tiles", "0", "1"];
      assert Kept(args[..5]) == ["create_tiles", "0", "1", "0"];
    }
    var a := CompactedArgs(args);
    assert a == ["create_tiles", "0", "1", "0", "0"] + ["0"] + [];
  }

  /** `main` up to the walk, as written: remove the `--compress` arguments,
      test `argc` (which still counts them) for 6 or 7, read the positional
      arguments from the compacted `argv`, make the root's column directory
      and walk the pyramid. Exit status 1 is EXIT_FAILURE, 0 EXIT_SUCCESS. */
  method Start(argv: array<string>, atoi: string -> int, fs: FileSystem, codecs: Codecs)
    returns (status: int, out: FileSystem)
    modifies argv
    ensures argv[..] == CompactedArgs(old(argv[..]))
    ensures var parsed := ParseArguments(old(argv[..]), atoi);
            && (parsed.None? ==> status == 1 && out == fs)
            && (parsed.Some? ==>
                  var cfg := parsed.value;
                  && status == 0
                  && out == Generate(fs, codecs, Settings(cfg.stylePath, CountFlags(old(argv[..]))),
                                     cfg.minZoom, cfg.maxZoom, cfg.x, cfg.y))
  {
    var compression := CompactArguments(argv);
    if argv.Length != 6 && argv.Length != 7 {
      return 1, fs;
    }
    var minz := atoi(argv[1]);
    var maxz := atoi(argv[2]);
    var x := atoi(argv[3]);
    var y := atoi(argv[4]);
    var settings := Settings(argv[5], compression);
    out := Generate(fs, codecs, settings, minz, maxz, x, y);
    status := 0;
  }

  /** `main` up to the walk with the usage check corrected: the walk starts
      exactly when five arguments remain besides the program name. */
  method StartIntended(argv: array<string>, atoi: string -> int, fs: FileSystem, codecs: Codecs)
    returns (status: int, out: FileSystem)
    modifies argv
    ensures argv[..] == CompactedArgs(old(argv[..]))
    ensures var parsed := ParseArgumentsIntended(old(argv[..]), atoi);
            && (parsed.None? ==> status == 1 && out == fs)
            && (parsed.Some? ==>
                  var cfg := parsed.value;
                  && status == 0
                  && out == Generate(fs, codecs, Settings(cfg.stylePath, CountFlags(old(argv[..]))),
                                     cfg.minZoom, cfg.maxZoom, cfg.x, cfg.y))
  {
    var compression := CompactArguments(argv);
    if argv.Length - compression != 6 {
      return 1, fs;
    }
    var minz := atoi(argv[1]);
    var maxz := atoi(argv[2]);
    var x := atoi(argv[3]);
    var y := atoi(argv[4]);
    var settings := Settings(argv[5], compression);
    out := Generate(fs, codecs, settings, minz, maxz, x, y);
    status := 0;
  }
}
